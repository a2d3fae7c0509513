/** What building the FLEQ graph guarantees: every new node has the type of its value,
    every dependency list is complete and exact, everything reachable has a node, and
    nothing else gets one, and the two directions of every edge are counted alike. */
module FleqBuilding {
  import opened FleqSpec

  // ----- Exact dependency lists -----

  /** The node of `x` lists exactly the dependencies of `x`, in order. */
  ghost predicate Done(env: Program, g: Graph, x: Value) {
    x in g && g[x].deps == env.depsOf(x, g[x].ty)
  }

  /** Every node but `busy` ones is as it was, or complete. */
  ghost predicate Exact(env: Program, g: Graph, r: Graph, busy: set<Value>) {
    forall x | x in r && x !in busy :: (x in g && r[x].deps == g[x].deps) || Done(env, r, x)
  }

  lemma {:induction false} AddToExact(env: Program, g: Graph, v: Value)
    requires WellFormed(env) && Inside(env, g) && v in env.values
    ensures Exact(env, g, AddTo(env, g, v), {})
    ensures v !in g || g[v].deps == [] ==> Done(env, AddTo(env, g, v), v)
    decreases Unexpanded(env, g), 0, 0
  {
    hide AddTo, AddAll, Inside, WellFormed, Unexpanded, Known, Exact, Grows;
    AddToUnfolds(env, g, v);
    var g1 := GetOrInsert(env, g, v);
    if g1[v].deps == [] {
      AddAllExact(env, g1, v, env.depsOf(v, g1[v].ty));
      AddAllFacts(env, g1, v, env.depsOf(v, g1[v].ty));
      ExpandedExact(env, g, v, AddAll(env, g1, v, env.depsOf(v, g1[v].ty)));
    } else {
      UntouchedExact(env, g);
    }
  }

  lemma {:induction false} ExpandedExact(env: Program, g: Graph, v: Value, r: Graph)
    requires var g1 := GetOrInsert(env, g, v);
             g1[v].deps == [] && Grows(g1, r, {v}) && Exact(env, g1, r, {v}) && r[v].deps == env.depsOf(v, g1[v].ty)
    ensures Exact(env, g, r, {}) && Done(env, r, v)
  {
  }

  lemma {:induction false} UntouchedExact(env: Program, g: Graph)
    ensures Exact(env, g, g, {})
  {
  }

  lemma {:induction false} AddAllExact(env: Program, g: Graph, p: Value, lst: seq<Value>)
    requires WellFormed(env) && Inside(env, g) && p in g && Known(env, lst)
    ensures Exact(env, g, AddAll(env, g, p, lst), {p})
    ensures var r := AddAll(env, g, p, lst); p in r && r[p].deps == g[p].deps + lst
    decreases Unexpanded(env, g) - {p}, 2, |lst|
  {
    hide AddTo, AddAll, Turn, Inside, WellFormed, Unexpanded, Known, Exact, Grows;
    AddAllFacts(env, g, p, lst);
    if lst == [] {
      NothingAdded(env, g, p);
    } else {
      AddAllUnfolds(env, g, p, lst);
      var g4 := Turn(env, g, p, lst[0]);
      TurnExact(env, g, p, lst[0]);
      AddAllExact(env, g4, p, lst[1..]);
      AddAllFacts(env, g4, p, lst[1..]);
      ExactTrans(env, g, g4, AddAll(env, g4, p, lst[1..]), {p});
    }
  }

  lemma {:induction false} NothingAdded(env: Program, g: Graph, p: Value)
    requires WellFormed(env) && Inside(env, g) && p in g
    ensures AddAll(env, g, p, []) == g && Exact(env, g, g, {p})
  {
  }

  lemma {:induction false} TurnExact(env: Program, g: Graph, p: Value, c: Value)
    requires WellFormed(env) && Inside(env, g) && p in g && c in env.values
    ensures Exact(env, g, Turn(env, g, p, c), {p})
    decreases Unexpanded(env, g) - {p}, 1, 0
  {
    hide AddTo, AddAll, Turn, Inside, WellFormed, Unexpanded, Grows;
    TurnUnfolds(env, g, p, c);
    AddToExact(env, AddCallee(GetOrInsert(env, g, c), p, c), c);
  }

  lemma {:induction false} ExactTrans(env: Program, g: Graph, h: Graph, r: Graph, busy: set<Value>)
    requires Exact(env, g, h, busy) && Exact(env, h, r, busy) && Grows(h, r, busy)
    ensures Exact(env, g, r, busy)
  {
  }

  // ----- Types of new nodes -----

  /** Every node that `r` has and `g` has not is of the type that the program gives its value. */
  ghost predicate TypedNew(env: Program, g: Graph, r: Graph) {
    forall x | x in r && x !in g :: r[x].ty == env.kind(x)
  }

  /** Every node is dead or of the type that the program gives its value. */
  ghost predicate Typed(env: Program, g: Graph) {
    forall x | x in g :: g[x].ty == Dead || g[x].ty == env.kind(x)
  }

  lemma {:induction false} TypedNewTrans(env: Program, g: Graph, h: Graph, r: Graph, busy: set<Value>)
    requires TypedNew(env, g, h) && TypedNew(env, h, r) && Grows(h, r, busy)
    ensures TypedNew(env, g, r)
  {
  }

  /** addToFLEQGraph types every node that it makes as characterizeNodeType says. */
  lemma {:induction false} AddToTypes(env: Program, g: Graph, v: Value)
    requires WellFormed(env) && Inside(env, g) && v in env.values
    ensures TypedNew(env, g, AddTo(env, g, v))
    decreases Unexpanded(env, g), 0, 0
  {
    hide AddTo, AddAll, Inside, WellFormed, Unexpanded, Known, Grows, TypedNew;
    AddToUnfolds(env, g, v);
    var g1 := GetOrInsert(env, g, v);
    InsertTypes(env, g, v);
    if g1[v].deps == [] {
      var lst := env.depsOf(v, g1[v].ty);
      AddAllTypes(env, g1, v, lst);
      AddAllFacts(env, g1, v, lst);
      TypedNewTrans(env, g, g1, AddAll(env, g1, v, lst), {v});
    }
  }

  lemma {:induction false} InsertTypes(env: Program, g: Graph, v: Value)
    ensures TypedNew(env, g, GetOrInsert(env, g, v))
  {
  }

  lemma {:induction false} AddAllTypes(env: Program, g: Graph, p: Value, lst: seq<Value>)
    requires WellFormed(env) && Inside(env, g) && p in g && Known(env, lst)
    ensures TypedNew(env, g, AddAll(env, g, p, lst))
    decreases Unexpanded(env, g) - {p}, 2, |lst|
  {
    hide AddTo, AddAll, Turn, Inside, WellFormed, Unexpanded, Known, Grows, TypedNew;
    if lst == [] {
      NothingAdded(env, g, p);
      NothingTyped(env, g);
    } else {
      AddAllUnfolds(env, g, p, lst);
      var t := Turn(env, g, p, lst[0]);
      TurnTypes(env, g, p, lst[0]);
      AddAllTypes(env, t, p, lst[1..]);
      AddAllFacts(env, t, p, lst[1..]);
      TypedNewTrans(env, g, t, AddAll(env, t, p, lst[1..]), {p});
    }
  }

  lemma {:induction false} NothingTyped(env: Program, g: Graph)
    ensures TypedNew(env, g, g)
  {
  }

  lemma {:induction false} TurnTypes(env: Program, g: Graph, p: Value, c: Value)
    requires WellFormed(env) && Inside(env, g) && p in g && c in env.values
    ensures TypedNew(env, g, Turn(env, g, p, c))
    decreases Unexpanded(env, g) - {p}, 1, 0
  {
    hide AddTo, AddAll, Turn, Inside, WellFormed, Unexpanded, Grows, TypedNew, AddCallee, AddParent;
    TurnUnfolds(env, g, p, c);
    var g2 := AddCallee(GetOrInsert(env, g, c), p, c);
    var g3 := AddTo(env, g2, c);
    CalleeTypes(env, g, p, c);
    AddToTypes(env, g2, c);
    TypedNewTrans(env, g, g2, g3, {});
    ParentTypes(env, g, g3, c, p);
  }

  lemma {:induction false} CalleeTypes(env: Program, g: Graph, p: Value, c: Value)
    requires p in g
    ensures TypedNew(env, g, AddCallee(GetOrInsert(env, g, c), p, c))
  {
  }

  lemma {:induction false} ParentTypes(env: Program, g: Graph, h: Graph, c: Value, p: Value)
    requires c in h && TypedNew(env, g, h)
    ensures TypedNew(env, g, AddParent(h, c, p))
  {
  }

  lemma {:induction false} GrowsTyped(env: Program, g: Graph, r: Graph, busy: set<Value>)
    requires Typed(env, g) && TypedNew(env, g, r) && Grows(g, r, busy)
    ensures Typed(env, r)
  {
  }

  // ----- Both directions of an edge are counted alike -----

  type Edges = multiset<(Value, Value)>

  /** p lists c as a dependency as often as c lists p as a parent, plus once for each
      pending edge: a dependency pushed whose child's parent list is not pushed yet. */
  ghost predicate Balanced(g: Graph, pending: Edges) {
    && (forall e | e in pending :: e.0 in g && e.1 in g)
    && (forall p, c | p in g && c in g :: BalancedAt(g, pending, p, c))
  }

  ghost predicate BalancedAt(g: Graph, pending: Edges, p: Value, c: Value)
    requires p in g && c in g
  {
    multiset(g[p].deps)[c] == multiset(g[c].parents)[p] + pending[(p, c)]
  }

  lemma {:induction false} InsertBalanced(env: Program, g: Graph, v: Value, pending: Edges)
    requires Inside(env, g) && Balanced(g, pending)
    ensures Balanced(GetOrInsert(env, g, v), pending)
  {
    var r := GetOrInsert(env, g, v);
    forall p, c | p in r && c in r ensures BalancedAt(r, pending, p, c) {
      if p in g && c in g {
        assert BalancedAt(g, pending, p, c);
      } else {
        assert v !in g && (p, c) !in pending;
        assert p in g ==> v !in g[p].deps;
        assert c in g ==> v !in g[c].parents;
      }
    }
  }

  lemma {:induction false} CalleeBalanced(g: Graph, p: Value, c: Value, pending: Edges)
    requires p in g && c in g && Balanced(g, pending)
    ensures Balanced(AddCallee(g, p, c), pending + multiset{(p, c)})
  {
    var r, more := AddCallee(g, p, c), pending + multiset{(p, c)};
    forall x, y | x in r && y in r ensures BalancedAt(r, more, x, y) {
      assert BalancedAt(g, pending, x, y);
      assert multiset(g[p].deps + [c]) == multiset(g[p].deps) + multiset{c};
    }
  }

  lemma {:induction false} ParentBalanced(g: Graph, p: Value, c: Value, pending: Edges)
    requires p in g && c in g && Balanced(g, pending + multiset{(p, c)})
    ensures Balanced(AddParent(g, c, p), pending)
  {
    var r, more := AddParent(g, c, p), pending + multiset{(p, c)};
    forall e | e in pending ensures e.0 in r && e.1 in r {
      assert e in more;
    }
    forall x, y | x in r && y in r ensures BalancedAt(r, pending, x, y) {
      assert BalancedAt(g, more, x, y);
      assert multiset(g[c].parents + [p]) == multiset(g[c].parents) + multiset{p};
    }
  }

  /** addToFLEQGraph keeps the balance, whatever edges are pending further down the
      call stack; with none pending, every edge is in both lists. */
  lemma {:induction false} AddToBalanced(env: Program, g: Graph, v: Value, pending: Edges)
    requires WellFormed(env) && Inside(env, g) && v in env.values && Balanced(g, pending)
    ensures Balanced(AddTo(env, g, v), pending)
    decreases Unexpanded(env, g), 0, 0
  {
    hide AddTo, AddAll, Inside, WellFormed, Unexpanded, Known, Balanced, Grows;
    AddToUnfolds(env, g, v);
    InsertBalanced(env, g, v, pending);
    var g1 := GetOrInsert(env, g, v);
    if g1[v].deps == [] {
      AddAllBalanced(env, g1, v, env.depsOf(v, g1[v].ty), pending);
    }
  }

  lemma {:induction false} AddAllBalanced(env: Program, g: Graph, p: Value, lst: seq<Value>, pending: Edges)
    requires WellFormed(env) && Inside(env, g) && p in g && Known(env, lst) && Balanced(g, pending)
    ensures Balanced(AddAll(env, g, p, lst), pending)
    decreases Unexpanded(env, g) - {p}, 2, |lst|
  {
    hide AddTo, AddAll, Turn, Inside, WellFormed, Unexpanded, Known, Balanced, Grows;
    if lst == [] {
      NothingAdded(env, g, p);
    } else {
      AddAllUnfolds(env, g, p, lst);
      TurnBalanced(env, g, p, lst[0], pending);
      AddAllBalanced(env, Turn(env, g, p, lst[0]), p, lst[1..], pending);
    }
  }

  lemma {:induction false} TurnBalanced(env: Program, g: Graph, p: Value, c: Value, pending: Edges)
    requires WellFormed(env) && Inside(env, g) && p in g && c in env.values && Balanced(g, pending)
    ensures Balanced(Turn(env, g, p, c), pending)
    decreases Unexpanded(env, g) - {p}, 1, 0
  {
    hide AddTo, AddAll, Turn, Inside, WellFormed, Unexpanded, Balanced, Grows, AddCallee, AddParent;
    TurnUnfolds(env, g, p, c);
    InsertFacts(env, g, c);
    InsertBalanced(env, g, c, pending);
    var g1 := GetOrInsert(env, g, c);
    assert p in g1;
    CalleeBalanced(g1, p, c, pending);
    var g2 := AddCallee(g1, p, c);
    AddToBalanced(env, g2, c, pending + multiset{(p, c)});
    ParentBalanced(AddTo(env, g2, c), p, c, pending);
  }

  // ----- Everything reachable is complete -----

  /** Every expanded node outside the call stack is complete, and so are the nodes it
      depends on, unless they are on the stack. */
  ghost predicate Settled(env: Program, g: Graph, stack: set<Value>) {
    forall x | x in g && x !in stack && g[x].deps != [] :: SettledAt(env, g, stack, x)
  }

  ghost predicate SettledAt(env: Program, g: Graph, stack: set<Value>, x: Value) {
    Done(env, g, x) && ChildrenDone(env, g, stack, x)
  }

  ghost predicate ChildrenDone(env: Program, g: Graph, stack: set<Value>, x: Value) {
    x in g && forall c | c in g[x].deps :: c in stack || Done(env, g, c)
  }

  ghost predicate Expanding(g: Graph, stack: set<Value>) {
    forall x | x in stack :: x in g && g[x].deps != []
  }

  /** Complete nodes stay complete while others are filled in. */
  lemma {:induction false} DoneStays(env: Program, g: Graph, r: Graph, busy: set<Value>, x: Value)
    requires Done(env, g, x) && Exact(env, g, r, busy) && Grows(g, r, busy) && x !in busy
    ensures Done(env, r, x)
  {
  }

  /** After the call the value is complete (or being expanded below), and everything
      off the stack is settled. */
  lemma {:induction false} AddToSettles(env: Program, g: Graph, v: Value, stack: set<Value>)
    requires WellFormed(env) && Inside(env, g) && v in env.values && Settled(env, g, stack) && Expanding(g, stack)
    ensures Settled(env, AddTo(env, g, v), stack)
    ensures v in stack || Done(env, AddTo(env, g, v), v)
    decreases Unexpanded(env, g), 0, 0
  {
    hide AddTo, AddAll, Inside, WellFormed, Unexpanded, Known, Grows, ChildrenDone, Settled, Expanding;
    AddToUnfolds(env, g, v);
    var g1 := GetOrInsert(env, g, v);
    InsertSettled(env, g, v, stack);
    InsertExpanding(env, g, v, stack);
    if g1[v].deps == [] {
      Pushed(env, g1, v, stack);
      AddAllSettles(env, g1, v, env.depsOf(v, g1[v].ty), stack);
    } else {
      SettledHere(env, g1, stack, v);
    }
  }

  lemma {:induction false} SettledHere(env: Program, g: Graph, stack: set<Value>, v: Value)
    requires Settled(env, g, stack) && v in g && g[v].deps != []
    ensures v in stack || Done(env, g, v)
  {
    assert v !in stack ==> SettledAt(env, g, stack, v);
  }

  lemma {:induction false} InsertSettled(env: Program, g: Graph, v: Value, stack: set<Value>)
    requires Settled(env, g, stack)
    ensures Settled(env, GetOrInsert(env, g, v), stack)
  {
    var r := GetOrInsert(env, g, v);
    forall x | x in r && x !in stack && r[x].deps != [] ensures SettledAt(env, r, stack, x) {
      assert SettledAt(env, g, stack, x);
    }
  }

  lemma {:induction false} InsertExpanding(env: Program, g: Graph, v: Value, stack: set<Value>)
    requires Expanding(g, stack)
    ensures Expanding(GetOrInsert(env, g, v), stack)
    ensures GetOrInsert(env, g, v)[v].deps == [] ==> v !in stack
  {
  }

  /** A value whose list is still empty is pushed on the stack. */
  lemma {:induction false} Pushed(env: Program, g: Graph, v: Value, stack: set<Value>)
    requires v in g && g[v].deps == [] && Settled(env, g, stack)
    ensures Settled(env, g, stack + {v}) && ChildrenDone(env, g, stack + {v}, v)
  {
    forall x | x in g && x !in stack + {v} && g[x].deps != [] ensures SettledAt(env, g, stack + {v}, x) {
      assert SettledAt(env, g, stack, x);
    }
  }

  lemma {:induction false} AddAllSettles(env: Program, g: Graph, p: Value, lst: seq<Value>, stack: set<Value>)
    requires WellFormed(env) && Inside(env, g) && p in g && Known(env, lst) && p !in stack
    requires Settled(env, g, stack + {p}) && Expanding(g, stack) && ChildrenDone(env, g, stack + {p}, p)
    requires g[p].deps + lst == env.depsOf(p, g[p].ty)
    ensures Settled(env, AddAll(env, g, p, lst), stack) && Done(env, AddAll(env, g, p, lst), p)
    decreases Unexpanded(env, g) - {p}, 2, |lst|
  {
    hide AddTo, AddAll, Turn, Inside, WellFormed, Unexpanded, Known, Grows, ChildrenDone, Settled, Expanding;
    if lst == [] {
      NothingAdded(env, g, p);
      assert g[p].deps + lst == g[p].deps;
      Popped(env, g, p, stack);
    } else {
      AddAllUnfolds(env, g, p, lst);
      var t := Turn(env, g, p, lst[0]);
      TurnSettles(env, g, p, lst[0], stack);
      assert t[p].deps + lst[1..] == g[p].deps + lst;
      AddAllSettles(env, t, p, lst[1..], stack);
    }
  }

  /** Once the last dependency of `p` is in, `p` can leave the stack. */
  lemma {:induction false} Popped(env: Program, g: Graph, p: Value, stack: set<Value>)
    requires Settled(env, g, stack + {p}) && ChildrenDone(env, g, stack + {p}, p) && Done(env, g, p)
    ensures Settled(env, g, stack)
  {
    forall x | x in g && x !in stack && g[x].deps != [] ensures SettledAt(env, g, stack, x) {
      if x != p {
        assert SettledAt(env, g, stack + {p}, x);
      }
    }
  }

  lemma {:induction false} TurnSettles(env: Program, g: Graph, p: Value, c: Value, stack: set<Value>)
    requires WellFormed(env) && Inside(env, g) && p in g && c in env.values && p !in stack
    requires Settled(env, g, stack + {p}) && Expanding(g, stack) && ChildrenDone(env, g, stack + {p}, p)
    ensures var t := Turn(env, g, p, c);
            Settled(env, t, stack + {p}) && Expanding(t, stack) && ChildrenDone(env, t, stack + {p}, p) &&
            p in t && t[p].ty == g[p].ty
    decreases Unexpanded(env, g) - {p}, 1, 0
  {
    hide AddTo, AddAll, Turn, Inside, WellFormed, Unexpanded, Grows, ChildrenDone, Settled, Expanding, AddCallee, Exact;
    TurnUnfolds(env, g, p, c);
    var g2 := AddCallee(GetOrInsert(env, g, c), p, c);
    var g3 := AddTo(env, g2, c);
    CalleeSettled(env, g, p, c, stack);
    AddToSettles(env, g2, c, stack + {p});
    AddToExact(env, g2, c);
    EarlierChildren(env, g, g2, g3, p, c, stack);
    ParentSettled(env, g3, p, c, stack);
    ExpandingGrows(g2, g3, stack + {p});
  }

  lemma {:induction false} CalleeSettled(env: Program, g: Graph, p: Value, c: Value, stack: set<Value>)
    requires p in g && p !in stack && Settled(env, g, stack + {p}) && Expanding(g, stack)
    ensures var g2 := AddCallee(GetOrInsert(env, g, c), p, c);
            Settled(env, g2, stack + {p}) && Expanding(g2, stack + {p}) && g2[p].ty == g[p].ty &&
            forall x | Done(env, g, x) && x != p :: Done(env, g2, x)
  {
    var g2 := AddCallee(GetOrInsert(env, g, c), p, c);
    forall x | x in g2 && x !in stack + {p} && g2[x].deps != [] ensures SettledAt(env, g2, stack + {p}, x) {
      assert SettledAt(env, g, stack + {p}, x);
    }
  }

  lemma {:induction false} EarlierChildren(env: Program, g: Graph, g2: Graph, g3: Graph, p: Value, c: Value,
          stack: set<Value>)
    requires p in g && p in g3 && ChildrenDone(env, g, stack + {p}, p) && g3[p].deps == g[p].deps + [c]
    requires forall x | Done(env, g, x) && x != p :: Done(env, g2, x)
    requires Exact(env, g2, g3, {}) && Grows(g2, g3, {}) && (c in stack + {p} || Done(env, g3, c))
    ensures ChildrenDone(env, g3, stack + {p}, p)
  {
    hide Exact, Grows, Done;
    forall x | x in g3[p].deps && x !in stack + {p} ensures Done(env, g3, x) {
      if x in g[p].deps {
        DoneStays(env, g2, g3, {}, x);
      }
    }
  }

  lemma {:induction false} ParentSettled(env: Program, g: Graph, p: Value, c: Value, stack: set<Value>)
    requires p in g && c in g && Settled(env, g, stack + {p}) && ChildrenDone(env, g, stack + {p}, p)
    ensures var r := AddParent(g, c, p);
            Settled(env, r, stack + {p}) && ChildrenDone(env, r, stack + {p}, p) && r[p].ty == g[p].ty &&
            (Expanding(g, stack + {p}) ==> Expanding(r, stack))
  {
    var r := AddParent(g, c, p);
    forall x | x in r && x !in stack + {p} && r[x].deps != [] ensures SettledAt(env, r, stack + {p}, x) {
      assert SettledAt(env, g, stack + {p}, x);
    }
  }

  lemma {:induction false} ExpandingGrows(g: Graph, r: Graph, stack: set<Value>)
    requires Expanding(g, stack) && Grows(g, r, {})
    ensures Expanding(r, stack) && forall x | x in g :: x in r && r[x].ty == g[x].ty
  {
  }

  /** A chain of dependencies from `path[0]`, as the program has them. */
  ghost predicate DependencyPath(env: Program, path: seq<Value>) {
    path != [] && forall i | 0 <= i < |path| - 1 :: DependsOn(env, path[i], path[i + 1])
  }

  ghost predicate DependsOn(env: Program, x: Value, y: Value) {
    y in env.depsOf(x, env.kind(x))
  }

  /** The node of `x` has the type and exactly the dependencies that the program gives `x`. */
  ghost predicate Complete(env: Program, g: Graph, x: Value) {
    x in g && g[x].ty == env.kind(x) && g[x].deps == env.depsOf(x, env.kind(x))
  }

  ghost predicate NoneDead(g: Graph, path: seq<Value>) {
    forall x | x in path && x in g :: g[x].ty != Dead
  }

  /** After addToFLEQGraph on a settled graph (an empty one, say), every value that a chain
      of dependencies without a dead node leads to has a complete node; cycles included. */
  lemma {:induction false} ReachableIsComplete(env: Program, g: Graph, v: Value, path: seq<Value>)
    requires WellFormed(env) && Inside(env, g) && v in env.values && Settled(env, g, {}) && Typed(env, g)
    requires DependencyPath(env, path) && path[0] == v && NoneDead(g, path)
    ensures Settled(env, AddTo(env, g, v), {}) && Complete(env, AddTo(env, g, v), path[|path| - 1])
    decreases |path|
  {
    hide AddTo, Inside, WellFormed, Settled, DependencyPath, Typed, TypedNew, Done, Grows, NoneDead;
    AddToSettles(env, g, v, {}) by {
      NoStack(g);
    }
    var r := AddTo(env, g, v);
    AddToTypes(env, g, v);
    ShorterPath(env, g, path);
    if |path| == 1 {
      LiveIsTyped(env, g, r, path, v);
    } else {
      var before := path[..|path| - 1];
      ReachableIsComplete(env, g, v, before);
      DoneNext(env, r, before[|before| - 1], path[|path| - 1]);
      LiveIsTyped(env, g, r, path, path[|path| - 1]);
    }
  }

  lemma {:induction false} LiveIsTyped(env: Program, g: Graph, r: Graph, path: seq<Value>, x: Value)
    requires Typed(env, g) && TypedNew(env, g, r) && Grows(g, r, {}) && NoneDead(g, path) && x in path
    requires Done(env, r, x)
    ensures Complete(env, r, x)
  {
  }

  lemma {:induction false} NoStack(g: Graph)
    ensures Expanding(g, {})
  {
  }

  lemma {:induction false} ShorterPath(env: Program, g: Graph, path: seq<Value>)
    requires DependencyPath(env, path) && NoneDead(g, path)
    ensures path != []
    ensures |path| > 1 ==>
            var before, last := path[..|path| - 1], path[|path| - 1];
            DependencyPath(env, before) && before[0] == path[0] && NoneDead(g, before) &&
            DependsOn(env, before[|before| - 1], last)
  {
    if |path| > 1 {
      var before := path[..|path| - 1];
      assert DependsOn(env, path[|path| - 2], path[|path| - 2 + 1]);
      forall i | 0 <= i < |before| - 1 ensures DependsOn(env, before[i], before[i + 1]) {
        assert DependsOn(env, path[i], path[i + 1]);
      }
    }
  }

  lemma {:induction false} DoneNext(env: Program, g: Graph, x: Value, y: Value)
    requires Settled(env, g, {}) && Complete(env, g, x) && DependsOn(env, x, y)
    ensures Done(env, g, y)
  {
    assert SettledAt(env, g, {}, x);
  }

  // ----- Nothing else is added -----

  ghost predicate ReachedFrom(env: Program, a: Value, x: Value) {
    exists path :: DependencyPath(env, path) && path[0] == a && path[|path| - 1] == x
  }

  /** Every node that `r` has and `g` has not is the node of a value that one of `from` leads to. */
  ghost predicate NewReached(env: Program, g: Graph, r: Graph, from: set<Value>) {
    forall x | x in r && x !in g :: exists a :: a in from && ReachedFrom(env, a, x)
  }

  lemma {:induction false} ReachesItself(env: Program, a: Value)
    ensures ReachedFrom(env, a, a)
  {
    assert DependencyPath(env, [a]);
  }

  lemma {:induction false} ReachedBefore(env: Program, p: Value, c: Value, x: Value)
    requires DependsOn(env, p, c) && ReachedFrom(env, c, x)
    ensures ReachedFrom(env, p, x)
  {
    var path :| DependencyPath(env, path) && path[0] == c && path[|path| - 1] == x;
    var longer := [p] + path;
    forall i | 0 <= i < |longer| - 1 ensures DependsOn(env, longer[i], longer[i + 1]) {
      if i > 0 {
        assert DependsOn(env, path[i - 1], path[i - 1 + 1]);
      }
    }
    assert DependencyPath(env, longer);
  }

  lemma {:induction false} NewReachedTrans(env: Program, g: Graph, h: Graph, r: Graph, a: set<Value>, b: set<Value>)
    requires NewReached(env, g, h, a) && NewReached(env, h, r, b)
    ensures NewReached(env, g, r, a + b)
  {
    hide ReachedFrom;
  }

  /** addToFLEQGraph makes nodes only for values that dependencies lead to. */
  lemma {:induction false} AddToReaches(env: Program, g: Graph, v: Value)
    requires WellFormed(env) && Inside(env, g) && v in env.values && Typed(env, g)
    ensures NewReached(env, g, AddTo(env, g, v), {v})
    decreases Unexpanded(env, g), 0, 0
  {
    hide AddTo, AddAll, Inside, Unexpanded, Known, Grows, Typed, TypedNew, NewReached, ReachedFrom;
    AddToUnfolds(env, g, v);
    var g1 := GetOrInsert(env, g, v);
    InsertTypes(env, g, v);
    GrowsTyped(env, g, g1, {});
    InsertReaches(env, g, v);
    if g1[v].deps == [] {
      var lst := env.depsOf(v, g1[v].ty);
      var r := AddAll(env, g1, v, lst);
      AddAllReaches(env, g1, v, lst);
      TypedAt(env, g1, v);
      FromParent(env, g1, r, v, lst);
      NewReachedTrans(env, g, g1, r, {v}, {v});
      assert {v} + {v} == {v};
    }
  }

  lemma {:induction false} TypedAt(env: Program, g: Graph, v: Value)
    requires Typed(env, g) && v in g
    ensures g[v].ty == Dead || g[v].ty == env.kind(v)
  {
  }

  lemma {:induction false} InsertReaches(env: Program, g: Graph, v: Value)
    ensures NewReached(env, g, GetOrInsert(env, g, v), {v})
  {
    ReachesItself(env, v);
    hide ReachedFrom;
  }

  lemma {:induction false} FromParent(env: Program, g: Graph, r: Graph, v: Value, lst: seq<Value>)
    requires NewReached(env, g, r, Elements(lst))
    requires lst == [] || forall c | c in lst :: DependsOn(env, v, c)
    ensures NewReached(env, g, r, {v})
  {
    hide ReachedFrom, DependsOn;
    forall x | x in r && x !in g ensures ReachedFrom(env, v, x) {
      var c :| c in Elements(lst) && ReachedFrom(env, c, x);
      ReachedBefore(env, v, c, x);
    }
  }

  ghost function Elements(lst: seq<Value>): set<Value> {
    set c | c in lst
  }

  lemma {:induction false} AddAllReaches(env: Program, g: Graph, p: Value, lst: seq<Value>)
    requires WellFormed(env) && Inside(env, g) && p in g && Known(env, lst) && Typed(env, g)
    ensures NewReached(env, g, AddAll(env, g, p, lst), Elements(lst))
    decreases Unexpanded(env, g) - {p}, 2, |lst|
  {
    hide AddTo, AddAll, Turn, Inside, WellFormed, Unexpanded, Known, Grows, Typed, TypedNew, NewReached;
    if lst == [] {
      NothingAdded(env, g, p);
      NothingReached(env, g);
    } else {
      AddAllUnfolds(env, g, p, lst);
      var t := Turn(env, g, p, lst[0]);
      TurnTypes(env, g, p, lst[0]);
      GrowsTyped(env, g, t, {p});
      TurnReaches(env, g, p, lst[0]);
      AddAllReaches(env, t, p, lst[1..]);
      NewReachedTrans(env, g, t, AddAll(env, t, p, lst[1..]), {lst[0]}, Elements(lst[1..]));
      assert {lst[0]} + Elements(lst[1..]) == Elements(lst) by {
        assert lst == [lst[0]] + lst[1..];
      }
    }
  }

  lemma {:induction false} NothingReached(env: Program, g: Graph)
    ensures NewReached(env, g, g, Elements([]))
  {
  }

  lemma {:induction false} TurnReaches(env: Program, g: Graph, p: Value, c: Value)
    requires WellFormed(env) && Inside(env, g) && p in g && c in env.values && Typed(env, g)
    ensures NewReached(env, g, Turn(env, g, p, c), {c})
    decreases Unexpanded(env, g) - {p}, 1, 0
  {
    hide AddTo, AddAll, Turn, Inside, WellFormed, Unexpanded, Grows, Typed, TypedNew, NewReached, AddCallee, AddParent;
    TurnUnfolds(env, g, p, c);
    var g2 := AddCallee(GetOrInsert(env, g, c), p, c);
    var g3 := AddTo(env, g2, c);
    CalleeTypes(env, g, p, c);
    GrowsTyped(env, g, g2, {p});
    CalleeReaches(env, g, p, c);
    AddToReaches(env, g2, c);
    NewReachedTrans(env, g, g2, g3, {c}, {c});
    assert {c} + {c} == {c};
    ParentReaches(env, g, g3, c, p, {c});
  }

  lemma {:induction false} CalleeReaches(env: Program, g: Graph, p: Value, c: Value)
    requires p in g
    ensures NewReached(env, g, AddCallee(GetOrInsert(env, g, c), p, c), {c})
  {
    ReachesItself(env, c);
    hide ReachedFrom;
  }

  lemma {:induction false} ParentReaches(env: Program, g: Graph, h: Graph, c: Value, p: Value, from: set<Value>)
    requires c in h && NewReached(env, g, h, from)
    ensures NewReached(env, g, AddParent(h, c, p), from)
  {
    hide ReachedFrom;
  }

  /** A node exactly for the values that dependencies of `v` lead to, each complete, and every
      edge in both lists. */
  ghost predicate Built(env: Program, v: Value, r: Graph) {
    && (forall x :: x in r <==> ReachedFrom(env, v, x))
    && (forall x | x in r :: Complete(env, r, x))
    && (forall p, c | p in r && c in r :: multiset(r[p].deps)[c] == multiset(r[c].parents)[p])
  }

  /** The graph that the constructor makes. */
  lemma {:induction false} AddToEmptyIsBuilt(env: Program, v: Value)
    requires WellFormed(env) && v in env.values
    ensures Inside(env, map[]) && Built(env, v, AddTo(env, map[], v))
  {
    hide AddTo, WellFormed, Complete;
    var empty: Graph := map[];
    var r := AddTo(env, empty, v);
    AddToReaches(env, empty, v);
    forall x | ReachedFrom(env, v, x) ensures Complete(env, r, x) {
      var path :| DependencyPath(env, path) && path[0] == v && path[|path| - 1] == x;
      ReachableIsComplete(env, empty, v, path);
    }
    forall x ensures x in r <==> ReachedFrom(env, v, x) {
      CompleteHasNode(env, r, x);
    }
    AddToBalanced(env, empty, v, multiset{});
    forall p, c | p in r && c in r ensures multiset(r[p].deps)[c] == multiset(r[c].parents)[p] {
      assert BalancedAt(r, multiset{}, p, c);
    }
  }

  lemma {:induction false} CompleteHasNode(env: Program, g: Graph, x: Value)
    ensures Complete(env, g, x) ==> x in g
  {
  }
}
