/** The FLEQ dependency graph as a value: for each program value its node type, the
    values it depends on, in order, and the values that list it as a dependency. */
module FleqSpec {
  type Value = nat

  /** kDead, or one of the kinds that characterizeNodeType returns. */
  datatype NodeType = Dead | Kind(code: nat)
  datatype Node = Node(ty: NodeType, deps: seq<Value>, parents: seq<Value>)
  type Graph = map<Value, Node>

  /** The program under analysis: its values, characterizeNodeType and
      getFLEQDependencies. */
  datatype Program = Program(values: set<Value>, kind: Value -> NodeType, depsOf: (Value, NodeType) -> seq<Value>)

  /** characterizeNodeType never answers kDead, a dead node has no dependencies to add,
      and dependencies are values of the program. */
  ghost predicate WellFormed(env: Program) {
    && (forall v | v in env.values :: env.kind(v) != Dead && env.depsOf(v, Dead) == [])
    && (forall v, ty, d | v in env.values && d in env.depsOf(v, ty) :: d in env.values)
  }

  /** Nodes of program values only, and every edge ends at a node. */
  ghost predicate Inside(env: Program, g: Graph) {
    && g.Keys <= env.values
    && (forall v, d | v in g && d in g[v].deps :: d in g)
    && (forall v, p | v in g && p in g[v].parents :: p in g)
  }

  ghost predicate Known(env: Program, lst: seq<Value>) {
    forall c | c in lst :: c in env.values
  }

  // ----- addToFLEQGraph -----

  function GetOrInsert(env: Program, g: Graph, v: Value): Graph {
    if v in g then g else g[v := Node(env.kind(v), [], [])]
  }

  function AddCallee(g: Graph, p: Value, c: Value): Graph
    requires p in g
  {
    g[p := g[p].(deps := g[p].deps + [c])]
  }

  function AddParent(g: Graph, c: Value, p: Value): Graph
    requires c in g
  {
    g[c := g[c].(parents := g[c].parents + [p])]
  }

  /** Values that an expansion may still have to fill in. */
  function Unexpanded(env: Program, g: Graph): set<Value> {
    set v | v in env.values && (v !in g || g[v].deps == [])
  }

  /** What both functions keep: nodes and their types stay, lists only grow, and the
      dependencies of an expanded node (other than `p`) do not change. */
  ghost predicate Grows(g: Graph, r: Graph, busy: set<Value>) {
    && g.Keys <= r.Keys
    && forall x | x in g ::
         && r[x].ty == g[x].ty
         && g[x].deps <= r[x].deps
         && g[x].parents <= r[x].parents
         && (g[x].deps != [] && x !in busy ==> r[x].deps == g[x].deps)
  }

  lemma {:induction false} InsertFacts(env: Program, g: Graph, v: Value)
    requires WellFormed(env) && Inside(env, g) && v in env.values
    ensures var r := GetOrInsert(env, g, v);
            v in r && Inside(env, r) && Grows(g, r, {}) && Unexpanded(env, r) == Unexpanded(env, g)
  {
    hide Inside, WellFormed;
    InsertInside(env, g, v);
  }

  lemma {:induction false} InsertInside(env: Program, g: Graph, v: Value)
    requires Inside(env, g) && v in env.values
    ensures Inside(env, GetOrInsert(env, g, v))
  {
  }

  lemma {:induction false} CalleeFacts(env: Program, g: Graph, p: Value, c: Value)
    requires WellFormed(env) && Inside(env, g) && p in g && c in env.values
    ensures var r := AddCallee(GetOrInsert(env, g, c), p, c);
            c in r && r[p].deps == g[p].deps + [c] && Inside(env, r) && Grows(g, r, {p}) &&
            Unexpanded(env, r) == Unexpanded(env, g) - {p}
  {
    var g1 := GetOrInsert(env, g, c);
    InsertFacts(env, g, c);
    assert p in g1 && g1[p] == g[p];
    hide Inside, WellFormed, Grows, GetOrInsert;
    CalleeInside(env, g1, p, c);
    CalleeGrows(env, g1, p, c);
    GrowsTrans(g, g1, AddCallee(g1, p, c), {}, {p});
  }

  lemma {:induction false} CalleeInside(env: Program, g: Graph, p: Value, c: Value)
    requires Inside(env, g) && p in g && c in g
    ensures Inside(env, AddCallee(g, p, c))
  {
  }

  lemma {:induction false} CalleeGrows(env: Program, g: Graph, p: Value, c: Value)
    requires p in g && c in g
    ensures Grows(g, AddCallee(g, p, c), {p})
    ensures Unexpanded(env, AddCallee(g, p, c)) == Unexpanded(env, g) - {p}
  {
    var r := AddCallee(g, p, c);
    assert r.Keys == g.Keys && r[p].deps == g[p].deps + [c] && g[p].deps <= r[p].deps;
  }

  lemma {:induction false} ParentFacts(env: Program, g: Graph, c: Value, p: Value)
    requires Inside(env, g) && p in g && c in g
    ensures var r := AddParent(g, c, p);
            r[p].deps == g[p].deps && Inside(env, r) && Grows(g, r, {}) && Unexpanded(env, r) == Unexpanded(env, g)
  {
    hide Inside;
    ParentInside(env, g, c, p);
    assert g[c].parents <= g[c].parents + [p];
  }

  lemma {:induction false} ParentInside(env: Program, g: Graph, c: Value, p: Value)
    requires Inside(env, g) && p in g && c in g
    ensures Inside(env, AddParent(g, c, p))
  {
  }

  lemma {:induction false} GrowsTrans(g: Graph, h: Graph, r: Graph, b: set<Value>, b': set<Value>)
    requires Grows(g, h, b) && Grows(h, r, b') && b <= b'
    ensures Grows(g, r, b')
  {
  }

  lemma {:induction false} GrowsShrinks(env: Program, g: Graph, r: Graph, b: set<Value>)
    requires Grows(g, r, b)
    ensures Unexpanded(env, r) <= Unexpanded(env, g)
  {
  }

  /** addToFLEQGraph(v).  The node must have no dependencies yet for them to be filled in. */
  function AddTo(env: Program, g: Graph, v: Value): (r: Graph)
    requires WellFormed(env) && Inside(env, g) && v in env.values
    ensures Inside(env, r) && Grows(g, r, {}) && v in r
    decreases Unexpanded(env, g), 0, 0
  {
    InsertFacts(env, g, v);
    var g1 := GetOrInsert(env, g, v);
    if g1[v].deps == [] then
      assert v in Unexpanded(env, g1);
      assert Known(env, env.depsOf(v, g1[v].ty));
      var r := AddAll(env, g1, v, env.depsOf(v, g1[v].ty));
      FilledIn(g, g1, r, v);
      r
    else g1
  }

  lemma {:induction false} FilledIn(g: Graph, g1: Graph, r: Graph, v: Value)
    requires Grows(g, g1, {}) && Grows(g1, r, {v}) && v in g1 && g1[v].deps == []
    ensures Grows(g, r, {})
  {
  }

  /** The loop of addToFLEQGraph over the dependencies of `p` that are left. */
  function AddAll(env: Program, g: Graph, p: Value, lst: seq<Value>): (r: Graph)
    requires WellFormed(env) && Inside(env, g) && p in g && Known(env, lst)
    ensures Inside(env, r) && Grows(g, r, {p})
    decreases Unexpanded(env, g) - {p}, 2, |lst|
  {
    if lst == [] then NoGrowth(g, p); g
    else
      assert lst[0] in lst && Known(env, lst[1..]);
      var g4 := Turn(env, g, p, lst[0]);
      var r := AddAll(env, g4, p, lst[1..]);
      GrowsTrans(g, g4, r, {p}, {p});
      r
  }

  /** One turn of that loop. */
  function Turn(env: Program, g: Graph, p: Value, c: Value): (r: Graph)
    requires WellFormed(env) && Inside(env, g) && p in g && c in env.values
    ensures Inside(env, r) && Grows(g, r, {p})
    ensures p in r && r[p].deps == g[p].deps + [c] && Unexpanded(env, r) - {p} <= Unexpanded(env, g) - {p}
    decreases Unexpanded(env, g) - {p}, 1, 0
  {
    CalleeFacts(env, g, p, c);
    var g2 := AddCallee(GetOrInsert(env, g, c), p, c);
    var g3 := AddTo(env, g2, c);
    TurnFacts(env, g, g2, g3, p, c);
    AddParent(g3, c, p)
  }

  lemma {:induction false} NoGrowth(g: Graph, p: Value)
    ensures Grows(g, g, {p})
  {
  }

  lemma {:induction false} TurnFacts(env: Program, g: Graph, g2: Graph, g3: Graph, p: Value, c: Value)
    requires p in g && p in g2 && Inside(env, g3) && c in g3
    requires Grows(g, g2, {p}) && Grows(g2, g3, {})
    requires g2[p].deps != [] && Unexpanded(env, g2) == Unexpanded(env, g) - {p}
    ensures var g4 := AddParent(g3, c, p);
            p in g4 && g4[p].deps == g2[p].deps && Inside(env, g4) && Grows(g, g4, {p}) &&
            Unexpanded(env, g4) - {p} <= Unexpanded(env, g) - {p}
  {
    var g4 := AddParent(g3, c, p);
    assert p in g3 && g3[p].deps == g2[p].deps;
    ParentFacts(env, g3, c, p);
    GrowsTrans(g2, g3, g4, {}, {});
    GrowsShrinks(env, g2, g4, {});
    GrowsTrans(g, g2, g3, {p}, {p}) by {
      assert Grows(g2, g3, {p});
    }
    GrowsTrans(g, g3, g4, {p}, {p}) by {
      assert Grows(g3, g4, {p});
    }
    hide *;
  }

  // ----- The three definitions, unfolded once -----

  lemma {:induction false} AddToUnfolds(env: Program, g: Graph, v: Value)
    requires WellFormed(env) && Inside(env, g) && v in env.values
    ensures var g1 := GetOrInsert(env, g, v);
            v in g1 && Inside(env, g1) && Grows(g, g1, {}) && Unexpanded(env, g1) == Unexpanded(env, g) &&
            Known(env, env.depsOf(v, g1[v].ty)) &&
            (g1[v].deps == [] ==> Unexpanded(env, g1) - {v} < Unexpanded(env, g)) &&
            AddTo(env, g, v) == if g1[v].deps == [] then AddAll(env, g1, v, env.depsOf(v, g1[v].ty)) else g1
  {
    InsertFacts(env, g, v);
    hide Grows, Inside;
    assert GetOrInsert(env, g, v)[v].deps == [] ==> v in Unexpanded(env, g);
  }

  lemma {:induction false} AddAllUnfolds(env: Program, g: Graph, p: Value, lst: seq<Value>)
    requires WellFormed(env) && Inside(env, g) && p in g && Known(env, lst) && lst != []
    ensures lst[0] in env.values && Known(env, lst[1..])
    ensures var t := Turn(env, g, p, lst[0]);
            Inside(env, t) && p in t && Grows(g, t, {p}) && t[p].deps == g[p].deps + [lst[0]] &&
            Unexpanded(env, t) - {p} <= Unexpanded(env, g) - {p} &&
            AddAll(env, g, p, lst) == AddAll(env, t, p, lst[1..])
  {
    hide Grows, Inside, Unexpanded, WellFormed;
    assert lst[0] in lst;
  }

  lemma {:induction false} TurnUnfolds(env: Program, g: Graph, p: Value, c: Value)
    requires WellFormed(env) && Inside(env, g) && p in g && c in env.values
    ensures var g2 := AddCallee(GetOrInsert(env, g, c), p, c);
            Inside(env, g2) && p in g2 && c in g2 && Grows(g, g2, {p}) && g2[p].deps == g[p].deps + [c] &&
            Unexpanded(env, g2) == Unexpanded(env, g) - {p} &&
            var g3 := AddTo(env, g2, c);
            p in g3 && c in g3 && g3[p].deps == g2[p].deps && Grows(g2, g3, {}) && Inside(env, g3) &&
            Turn(env, g, p, c) == AddParent(g3, c, p)
  {
    CalleeFacts(env, g, p, c);
    var g2 := AddCallee(GetOrInsert(env, g, c), p, c);
    var g3 := AddTo(env, g2, c);
    assert p in g3 && g3[p].deps == g2[p].deps;
    hide Grows, Inside;
  }

  lemma {:induction false} AddAllFacts(env: Program, g: Graph, p: Value, lst: seq<Value>)
    requires WellFormed(env) && Inside(env, g) && p in g && Known(env, lst)
    ensures var r := AddAll(env, g, p, lst); p in r && Inside(env, r) && Grows(g, r, {p})
  {
  }
}
