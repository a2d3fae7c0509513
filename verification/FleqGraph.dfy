/** The FLEQ graph on the heap: nodes that point at each other, updated in place.  Every
    method is proved to do to the graph what its specification function does to the value
    that the graph stands for. */
module FleqGraph {
  import opened FleqSpec
  import opened FleqBuilding
  import opened FleqDeath
  import opened FleqAcyclic
  import opened FleqReplace

  class FLEQNode {
    const functionCall: Value
    var nodeType: NodeType
    var dependencyList: seq<FLEQNode>
    var parentList: seq<FLEQNode>

    constructor (v: Value, ty: NodeType)
      ensures functionCall == v && nodeType == ty && dependencyList == [] && parentList == []
    {
      functionCall, nodeType, dependencyList, parentList := v, ty, [], [];
    }

    function Contents(): Node
      reads this
    {
      Node(nodeType, Names(dependencyList), Names(parentList))
    }
  }

  function Names(ns: seq<FLEQNode>): (r: seq<Value>)
    ensures |r| == |ns| && forall i | 0 <= i < |ns| :: r[i] == ns[i].functionCall
  {
    seq(|ns|, i requires 0 <= i < |ns| => ns[i].functionCall)
  }

  class FLEQGraph {
    const env: Program
    var functionMap: map<Value, FLEQNode>
    var root: FLEQNode?

    // ----- What the heap stands for -----

    /** The node is the one that the graph has for its value. */
    ghost predicate Has(n: FLEQNode)
      reads `functionMap
    {
      n.functionCall in functionMap && functionMap[n.functionCall] == n
    }

    ghost predicate HasAll(ns: seq<FLEQNode>)
      reads `functionMap
    {
      forall n | n in ns :: Has(n)
    }

    ghost predicate Valid()
      reads `functionMap, functionMap.Values
    {
      && WellFormed(env) && functionMap.Keys <= env.values
      && (forall v | v in functionMap :: functionMap[v].functionCall == v)
      && (forall v | v in functionMap :: HasAll(functionMap[v].dependencyList) && HasAll(functionMap[v].parentList))
    }

    ghost function Contents(): (g: Graph)
      reads `functionMap, functionMap.Values
      ensures Valid() ==> Inside(env, g) && Closed(g)
    {
      var g: Graph := map v | v in functionMap :: functionMap[v].Contents();
      if Valid() then EdgesInside(g); g else g
    }

    lemma {:induction false} EdgesInside(g: Graph)
      requires Valid() && g.Keys == functionMap.Keys && forall v | v in g :: g[v] == functionMap[v].Contents()
      ensures Inside(env, g) && Closed(g)
    {
      forall v, d | v in g && d in g[v].deps ensures d in g {
        var i :| 0 <= i < |g[v].deps| && g[v].deps[i] == d;
        assert functionMap[v].dependencyList[i] in functionMap[v].dependencyList;
      }
      forall v, d | v in g && d in g[v].parents ensures d in g {
        var i :| 0 <= i < |g[v].parents| && g[v].parents[i] == d;
        assert functionMap[v].parentList[i] in functionMap[v].parentList;
      }
    }

    /** Nodes stay where they are. */
    predicate Extends(before: map<Value, FLEQNode>)
      reads `functionMap
    {
      forall v | v in before :: v in functionMap && functionMap[v] == before[v]
    }

    // ----- The updates in place -----

    lemma {:induction false} ValidFacts()
      requires Valid()
      ensures WellFormed(env) && Contents().Keys == functionMap.Keys
      ensures forall v | v in functionMap :: functionMap[v].functionCall == v
    {
    }

    lemma {:induction false} HasNode(n: FLEQNode)
      requires Valid() && Has(n)
      ensures WellFormed(env) && HasAll(n.dependencyList) && HasAll(n.parentList)
      ensures n.functionCall in Contents() && Contents()[n.functionCall] == n.Contents()
    {
    }

    /** One node has changed, and points at nodes of the graph only. */
    twostate lemma {:induction false} NodeChanged(n: FLEQNode)
      requires old(Valid()) && old(Has(n)) && functionMap == old(functionMap) && HasAll(n.dependencyList) &&
               HasAll(n.parentList)
      requires forall v | v in functionMap && functionMap[v] != n :: unchanged(functionMap[v])
      ensures Valid() && Contents() == old(Contents())[n.functionCall := n.Contents()]
    {
      hide Inside, Closed, WellFormed, FLEQNode.Contents, Names;
    }

    method AddCallee(n: FLEQNode, child: FLEQNode)
      requires Valid() && Has(n) && Has(child)
      modifies n`dependencyList
      ensures Valid()
      ensures Contents() == FleqSpec.AddCallee(old(Contents()), n.functionCall, child.functionCall)
    {
      HasNode(n);
      n.dependencyList := n.dependencyList + [child];
      NodeChanged(n);
      assert Names(n.dependencyList) == Names(old(n.dependencyList)) + [child.functionCall];
    }

    method AddParent(n: FLEQNode, parent: FLEQNode)
      requires Valid() && Has(n) && Has(parent)
      modifies n`parentList
      ensures Valid()
      ensures Contents() == FleqSpec.AddParent(old(Contents()), n.functionCall, parent.functionCall)
    {
      HasNode(n);
      n.parentList := n.parentList + [parent];
      NodeChanged(n);
      assert Names(n.parentList) == Names(old(n.parentList)) + [parent.functionCall];
    }

    /** What the value of the graph says of the types of its nodes. */
    twostate lemma {:induction false} TypesOnTheHeap()
      requires old(Valid()) && Valid() && Extends(old(functionMap))
      requires Grows(old(Contents()), Contents(), {}) && TypedNew(env, old(Contents()), Contents())
      ensures forall x | x in old(functionMap) :: functionMap[x].nodeType == old(functionMap[x].nodeType)
      ensures forall x | x in functionMap && x !in old(functionMap) :: functionMap[x].nodeType == env.kind(x)
    {
      hide Inside, Closed, WellFormed, Names;
      forall x | x in functionMap ensures Contents()[x].ty == functionMap[x].nodeType {
      }
      forall x | x in old(functionMap) ensures old(Contents())[x].ty == old(functionMap[x].nodeType) {
      }
    }

    // ----- getNode, getOrInsertNode -----

    method GetNode(v: Value) returns (n: FLEQNode?)
      ensures n == null <==> v !in functionMap
      ensures n != null ==> n == functionMap[v]
    {
      if v !in functionMap {
        return null;
      }
      n := functionMap[v];
    }

    /** A new node that points at nothing. */
    twostate lemma {:induction false} NodeAdded(new n: FLEQNode)
      requires old(Valid()) && fresh(n) && n.functionCall in env.values - old(functionMap.Keys)
      requires functionMap == old(functionMap)[n.functionCall := n] && n.dependencyList == n.parentList == []
      requires forall v | v in old(functionMap) :: unchanged(old(functionMap)[v])
      ensures Valid() && Contents() == old(Contents())[n.functionCall := Node(n.nodeType, [], [])]
    {
      assert n.Contents() == Node(n.nodeType, [], []) by {
        assert Names([]) == [];
      }
      hide Inside, Closed, WellFormed, FLEQNode.Contents, Names;
    }

    method GetOrInsertNode(v: Value) returns (n: FLEQNode)
      requires Valid() && v in env.values
      modifies `functionMap
      ensures Valid() && n.functionCall == v && Has(n)
      ensures Extends(old(functionMap)) && fresh(functionMap.Values - old(functionMap.Values))
      ensures v in old(functionMap) ==> functionMap == old(functionMap)
      ensures v !in old(functionMap) ==> functionMap == old(functionMap)[v := n] && n.nodeType == env.kind(v) &&
                                         n.dependencyList == n.parentList == []
      ensures Contents() == GetOrInsert(env, old(Contents()), v)
    {
      hide Valid, Contents, Inside, WellFormed;
      ValidFacts();
      var found := GetNode(v);
      if found != null {
        return found;
      }
      n := new FLEQNode(v, env.kind(v));
      functionMap := functionMap[v := n];
      NodeAdded(n);
    }

    // ----- addToFLEQGraph -----

    method AddToFLEQGraph(v: Value) returns (n: FLEQNode)
      requires Valid() && v in env.values
      modifies `functionMap, functionMap.Values
      ensures Valid() && n.functionCall == v && Has(n)
      ensures Extends(old(functionMap)) && fresh(functionMap.Values - old(functionMap.Values))
      ensures forall x | x in old(functionMap) :: functionMap[x].nodeType == old(functionMap[x].nodeType)
      ensures forall x | x in functionMap && x !in old(functionMap) :: functionMap[x].nodeType == env.kind(x)
      ensures Contents() == AddTo(env, old(Contents()), v)
      decreases Unexpanded(env, Contents()), 0
    {
      hide Valid, Contents, Inside, Grows, AddTo, AddAll, Turn, Unexpanded, WellFormed, Known, GetOrInsert;
      ValidFacts();
      n := GetOrInsertNode(v);
      ghost var g1 := Contents();
      AddToUnfolds(env, old(Contents()), v);
      HasNode(n);
      if |n.dependencyList| == 0 {
        var lst := env.depsOf(v, n.nodeType);
        assert lst[0..] == lst;
        var i := 0;
        while i < |lst|
          invariant 0 <= i <= |lst| && Valid() && Has(n)
          invariant Extends(old(functionMap)) && fresh(functionMap.Values - old(functionMap.Values))
          invariant Known(env, lst[i..]) && v in Contents()
          invariant Unexpanded(env, Contents()) - {v} <= Unexpanded(env, g1) - {v}
          invariant AddAll(env, Contents(), v, lst[i..]) == AddAll(env, g1, v, lst)
        {
          AddAllUnfolds(env, Contents(), v, lst[i..]);
          assert lst[i..][0] == lst[i] && lst[i..][1..] == lst[i + 1..];
          AddDependency(n, lst[i]);
          i := i + 1;
        }
        NothingLeft(env, Contents(), v);
        assert lst[i..] == [];
      }
      AddToTypes(env, old(Contents()), v);
      TypesOnTheHeap();
    }

    lemma {:induction false} NothingLeft(env: Program, g: Graph, p: Value)
      requires WellFormed(env) && Inside(env, g) && p in g && Known(env, [])
      ensures AddAll(env, g, p, []) == g
    {
    }

    method AddDependency(n: FLEQNode, v: Value)
      requires Valid() && Has(n) && v in env.values
      modifies `functionMap, functionMap.Values
      ensures Valid() && Has(n)
      ensures Extends(old(functionMap)) && fresh(functionMap.Values - old(functionMap.Values))
      ensures n.functionCall in old(Contents()) && Contents() == Turn(env, old(Contents()), n.functionCall, v)
      decreases Unexpanded(env, Contents()) - {n.functionCall}, 1
    {
      hide Valid, Contents, Inside, Grows, AddTo, AddAll, Turn, Unexpanded, WellFormed, GetOrInsert;
      HasNode(n);
      TurnUnfolds(env, Contents(), n.functionCall, v);
      var callee := GetOrInsertNode(v);
      AddCallee(n, callee);
      var child := AddToFLEQGraph(v);
      AddParent(child, n);
    }

    lemma {:induction false} Empty()
      requires functionMap == map[] && WellFormed(env)
      ensures Valid() && Contents() == map[]
    {
    }

    constructor (program: Program, v: Value)
      requires WellFormed(program) && v in program.values
      ensures Valid() && env == program && root != null && Has(root) && root.functionCall == v
      ensures fresh(functionMap.Values)
      ensures Inside(program, map[]) && Contents() == AddTo(program, map[], v) && Built(program, v, Contents())
    {
      hide Valid, Contents, Inside, WellFormed, AddTo, GetOrInsert, Built;
      env, functionMap, root := program, map[], null;
      new;
      Empty();
      var n := GetOrInsertNode(v);
      root := n;
      InsertTwice(program, v);
      n := AddToFLEQGraph(v);
      AddToEmptyIsBuilt(program, v);
    }

    /** The built graph, said of the nodes themselves. */
    lemma {:induction false} BuiltOnTheHeap(v: Value)
      requires Valid() && Built(env, v, Contents())
      ensures forall x :: x in functionMap <==> ReachedFrom(env, v, x)
      ensures forall x | x in functionMap :: functionMap[x].nodeType == env.kind(x) &&
                Names(functionMap[x].dependencyList) == env.depsOf(x, env.kind(x))
    {
      hide Inside, Closed, WellFormed, Names, ReachedFrom;
      assert Contents().Keys == functionMap.Keys;
      forall x | x in functionMap
        ensures functionMap[x].nodeType == env.kind(x) &&
                Names(functionMap[x].dependencyList) == env.depsOf(x, env.kind(x)) {
        assert Complete(env, Contents(), x);
      }
    }

    // ----- setNodesAsDead -----

    /** The frontier as the specification sees it. */
    lemma {:induction false} FrontierNodes(nodes: seq<FLEQNode>)
      requires Valid() && HasAll(nodes)
      ensures Nodes(Contents(), Names(nodes))
    {
      hide Valid, Contents;
      ValidFacts();
      forall v | v in Names(nodes) ensures v in Contents() {
        var i :| 0 <= i < |nodes| && Names(nodes)[i] == v;
        assert nodes[i] in nodes;
      }
    }

    method AllParentsDead(n: FLEQNode) returns (dead: bool)
      requires Valid() && Has(n)
      ensures dead <==> !HasLiveParent(Contents(), n.functionCall)
    {
      dead := true;
      var i := 0;
      while i < |n.parentList|
        invariant 0 <= i <= |n.parentList|
        invariant dead <==> forall j | 0 <= j < i :: n.parentList[j].nodeType == Dead
      {
        dead := dead && n.parentList[i].nodeType == Dead;
        i := i + 1;
      }
      LiveParents(n);
    }

    lemma {:induction false} LiveParents(n: FLEQNode)
      requires Valid() && Has(n)
      ensures HasLiveParent(Contents(), n.functionCall) <==>
              exists j :: 0 <= j < |n.parentList| && n.parentList[j].nodeType != Dead
    {
      hide Inside, Closed, WellFormed;
      var g := Contents();
      assert g[n.functionCall] == n.Contents();
      forall j | 0 <= j < |n.parentList|
        ensures IsDead(g, Names(n.parentList)[j]) <==> n.parentList[j].nodeType == Dead {
        assert Has(n.parentList[j]);
      }
    }

    method SetAsDead(n: FLEQNode)
      requires Valid() && Has(n)
      modifies n`nodeType
      ensures Valid() && n.functionCall in old(Contents()) && Contents() == Kill(old(Contents()), n.functionCall)
    {
      HasNode(n);
      n.nodeType := Dead;
      NodeChanged(n);
    }

    /** The children of a dead node are passed on. */
    method PassChildren(n: FLEQNode, passFwd: seq<FLEQNode>) returns (r: seq<FLEQNode>)
      requires HasAll(n.dependencyList) && HasAll(passFwd)
      ensures HasAll(r) && Names(r) == Names(passFwd) + Names(n.dependencyList)
    {
      r := passFwd;
      var k := 0;
      while k < |n.dependencyList|
        invariant 0 <= k <= |n.dependencyList| && r == passFwd + n.dependencyList[..k]
      {
        r := r + [n.dependencyList[k]];
        k := k + 1;
      }
    }

    method SetNodesAsDead(nodes: seq<FLEQNode>, ghost rank: Value -> nat, ghost m: nat)
      requires Valid() && HasAll(nodes) && Ranked(Contents(), rank) && Below(Names(nodes), rank, m)
      modifies functionMap.Values
      ensures Valid() && Nodes(old(Contents()), Names(nodes))
      ensures Contents() == MarkDead(old(Contents()), Names(nodes), rank, m)
      decreases m
    {
      hide Valid, Contents, Inside, WellFormed, Closed, Nodes, Sweep, Kill, HasLiveParent, Ranked, Below, MarkDead;
      ghost var g0 := Contents();
      FrontierNodes(nodes);
      MarkDeadUnfolds(g0, Names(nodes), rank, m);
      if |nodes| == 0 {
        assert Names(nodes) == [];
        return;
      }
      var passFwd: seq<FLEQNode> := [];
      var i := 0;
      assert nodes[0..] == nodes && Names(passFwd) == [];
      while i < |nodes|
        invariant 0 <= i <= |nodes| && Valid() && HasAll(passFwd)
        invariant Nodes(Contents(), Names(nodes[i..]))
        invariant PassedOn(Contents(), Names(nodes[i..]), Names(passFwd)) == Sweep(g0, Names(nodes))
      {
        SweepUnfolds(Contents(), Names(nodes[i..]), Names(passFwd));
        assert Names(nodes[i..])[1..] == Names(nodes[i + 1..]);
        var node := nodes[i];
        assert Names(nodes[i..])[0] == node.functionCall && node in nodes;
        var isNodeDead := AllParentsDead(node);
        if isNodeDead {
          HasNode(node);
          SetAsDead(node);
          passFwd := PassChildren(node, passFwd);
        }
        i := i + 1;
      }
      NothingPassed(Contents(), Names(nodes[i..]), Names(passFwd));
      SetNodesAsDead(passFwd, rank, m - 1);
    }

    // ----- replaceNodeWith -----

    method SetDependency(n: FLEQNode, i: nat, child: FLEQNode)
      requires Valid() && Has(n) && Has(child) && i < |n.dependencyList|
      modifies n`dependencyList
      ensures Valid() && n.dependencyList == old(n.dependencyList)[i := child]
      ensures var g, v := old(Contents()), n.functionCall;
              v in g && i < |g[v].deps| && Contents() == g[v := g[v].(deps := g[v].deps[i := child.functionCall])]
    {
      HasNode(n);
      n.dependencyList := n.dependencyList[i := child];
      NodeChanged(n);
      assert Names(n.dependencyList) == Names(old(n.dependencyList))[i := child.functionCall];
    }

    method SetParents(n: FLEQNode, parents: seq<FLEQNode>)
      requires Valid() && Has(n) && HasAll(parents)
      modifies n`parentList
      ensures Valid() && n.parentList == parents
      ensures var g := old(Contents());
              n.functionCall in g && Contents() == g[n.functionCall := g[n.functionCall].(parents := Names(parents))]
    {
      HasNode(n);
      n.parentList := parents;
      NodeChanged(n);
    }

    method AdoptParent(n: FLEQNode, parent: FLEQNode, depOld: Slot)
      requires Valid() && Has(n) && Has(parent) && (depOld.Slot? ==> depOld.index < |n.parentList|)
      modifies n`parentList
      ensures Valid()
      ensures var g, nn := old(Contents()), n.functionCall;
              nn in g && |g[nn].parents| == |old(n.parentList)| &&
              Contents() == g[nn := g[nn].(parents := AdoptOnce(Adopting(g[nn].parents, depOld),
                                                                parent.functionCall).parents)]
    {
      hide Valid, Contents, HasAll, Has, Names;
      HasNode(n);
      WithParent(n, parent, if depOld.Slot? then depOld.index else 0);
      if depOld.Slot? {
        SetParents(n, n.parentList[depOld.index := parent]);
        assert Names(n.parentList) == Names(old(n.parentList))[depOld.index := parent.functionCall];
      } else {
        SetParents(n, n.parentList + [parent]);
        assert Names(n.parentList) == Names(old(n.parentList)) + [parent.functionCall];
      }
    }

    /** One parent of `fn`: its dependency list, and its entries among the new node's
        parents.  `depOld` is the entry of `fn` that may still be overwritten. */
    method RewireParent(parent: FLEQNode, fn: FLEQNode, newnode: FLEQNode, depOld: Slot) returns (rest: Slot)
      requires Valid() && Has(parent) && Has(fn) && Has(newnode) && parent != newnode
      requires depOld.Slot? ==> depOld.index < |newnode.parentList|
      modifies parent`dependencyList, newnode`parentList
      ensures Valid() && (rest.Slot? ==> rest.index < |newnode.parentList|)
      ensures var g := old(Contents());
              parent.functionCall in g && newnode.functionCall in g &&
              (Contents(), rest) == RewireOne(g, parent.functionCall, fn.functionCall, newnode.functionCall, depOld)
    {
      hide Valid, Contents, Inside, WellFormed, Closed, Occurrences, Adopt, AdoptOnce, Has, HasAll, Halfway, Subst,
           RewireOne, Names;
      ghost var g, p, nn := Contents(), parent.functionCall, newnode.functionCall;
      Apart(parent, newnode);
      HasNode(parent);
      HasNode(newnode);
      ghost var deps := g[p].deps;
      HalfwayStarts(g, p, fn.functionCall, nn);
      rest := depOld;
      ghost var parents := g[nn].parents;
      var i := 0;
      while i < |parent.dependencyList|
        invariant 0 <= i <= |parent.dependencyList| == |deps| && Valid() && Has(parent) && Has(fn) && Has(newnode)
        invariant rest.Slot? ==> rest.index < |newnode.parentList|
        invariant Contents() == Halfway(g, p, nn, Replaced(deps, i, fn.functionCall, nn), parents)
        invariant Adopt(Adopting(parents, rest), p, Occurrences(deps[i..], fn.functionCall)) ==
                  Adopt(Adopting(g[nn].parents, depOld), p, Occurrences(deps, fn.functionCall))
      {
        ghost var now, next := Replaced(deps, i, fn.functionCall, nn), Replaced(deps, i + 1, fn.functionCall, nn);
        ghost var adopted := AdoptOnce(Adopting(parents, rest), p);
        ChildHas(parent, i);
        HalfwayAt(g, p, nn, now, parents, next, parents);
        AdoptUnfolds(Adopting(parents, rest), p, deps, i, fn.functionCall);
        SameNode(parent.dependencyList[i], fn);
        ReplacedNext(deps, i, fn.functionCall, nn);
        if parent.dependencyList[i] == fn {
          SetDependency(parent, i, newnode);
          HalfwayAt(g, p, nn, next, parents, next, adopted.parents);
          AdoptParent(newnode, parent, rest);
          parents, rest := adopted.parents, None;
        }
        i := i + 1;
      }
      HalfwayEnds(g, p, fn.functionCall, nn, depOld, Adopting(parents, rest), i);
      HasNode(newnode);
    }

    /** The first entry of `fn` in the parent list of `n`. */
    method FindParent(n: FLEQNode, fn: FLEQNode) returns (depOld: Slot)
      requires Valid() && Has(n) && Has(fn)
      ensures n.functionCall in Contents() && depOld == SlotOf(Contents()[n.functionCall].parents, fn.functionCall)
      ensures depOld.Slot? ==> depOld.index < |n.parentList|
    {
      HasNode(n);
      hide Valid, Contents, HasAll, Has, SlotOf;
      ghost var names := Names(n.parentList);
      var i := 0;
      while i < |n.parentList|
        invariant 0 <= i <= |n.parentList| && forall j | 0 <= j < i :: names[j] != fn.functionCall
      {
        ParentHas(n, i);
        SameNode(n.parentList[i], fn);
        if n.parentList[i] == fn {
          break;
        }
        i := i + 1;
      }
      FirstIsSlot(names, i, fn.functionCall);
      depOld := if i < |n.parentList| then Slot(i) else None;
    }

    lemma {:induction false} ParentHas(n: FLEQNode, i: nat)
      requires Valid() && Has(n) && i < |n.parentList|
      ensures Has(n.parentList[i])
      ensures var g := Contents();
              n.functionCall in g && |g[n.functionCall].parents| == |n.parentList| &&
              g[n.functionCall].parents[i] == n.parentList[i].functionCall
    {
      HasNode(n);
      assert n.parentList[i] in n.parentList;
      hide Valid, Contents;
    }

    /** The loop over the parents of `fn`. */
    method RewireParents(fn: FLEQNode, newnode: FLEQNode, first: Slot)
      requires Valid() && Has(fn) && Has(newnode) && fn != newnode &&
               (first.Slot? ==> first.index < |newnode.parentList|)
      modifies functionMap.Values
      ensures Valid() && Has(fn) && Has(newnode)
      ensures var g, f := old(Contents()), fn.functionCall;
              f in g && newnode.functionCall in g && Nodes(g, g[f].parents) &&
              Contents() == Rewire(g, g[f].parents, f, newnode.functionCall, first)
    {
      hide Valid, Contents, Inside, WellFormed, Closed, Rewire, RewireOne, Nodes;
      HasNode(fn);
      HasNode(newnode);
      FrontierNodes(fn.parentList);
      ghost var g, f, v := Contents(), fn.functionCall, newnode.functionCall;
      ghost var parents := g[f].parents;
      assert parents[0..] == parents;
      var depOld := first;
      var i := 0;
      while i < |fn.parentList|
        invariant 0 <= i <= |fn.parentList| == |parents| && Valid() && Has(fn) && Has(newnode)
        invariant Names(fn.parentList) == parents
        invariant depOld.Slot? ==> depOld.index < |newnode.parentList|
        invariant v in Contents() && Nodes(Contents(), parents[i..])
        invariant Rewire(Contents(), parents[i..], f, v, depOld) == Rewire(g, parents, f, v, first)
      {
        ParentHas(fn, i);
        RewireUnfolds(Contents(), parents[i..], f, v, depOld);
        assert parents[i..][0] == parents[i] && parents[i..][1..] == parents[i + 1..];
        SameNode(fn.parentList[i], newnode);
        if fn.parentList[i] != newnode {
          depOld := RewireParent(fn.parentList[i], fn, newnode, depOld);
        }
        i := i + 1;
      }
      RewireUnfolds(Contents(), parents[i..], f, v, depOld);
      assert parents[i..] == [];
    }

    method ReplaceNodeWith(fn: FLEQNode, v: Value) returns (newnode: FLEQNode)
      requires Valid() && Has(fn) && v in env.values
      requires var g := AddTo(env, Contents(), v); CanReplace(g, fn.functionCall, v) && Mirrored(g)
      modifies `functionMap, functionMap.Values
      ensures Valid() && Has(newnode) && newnode.functionCall == v
      ensures Extends(old(functionMap)) && fresh(functionMap.Values - old(functionMap.Values))
      ensures var g := AddTo(env, old(Contents()), v); Closed(g) && Contents() == Replace(g, fn.functionCall, v)
    {
      hide Valid, Contents, Inside, WellFormed, Closed, AddTo, Mirrored, CanReplace, Rewire, LiftedRank, MarkDead,
           SlotOf, Ranked, Below, Replace;
      newnode := AddToFLEQGraph(v);
      ghost var g, f := Contents(), fn.functionCall;
      ghost var rank := LiftedRank(g, v);
      ReplaceSteps(g, f, v);
      var depOld := FindParent(newnode, fn);
      RewireParents(fn, newnode, depOld);
      SetParents(fn, []);
      assert Names([]) == [] && Names([fn]) == [f];
      SetNodesAsDead([fn], rank, rank(f) + 1);
    }

    lemma {:induction false} ChildHas(n: FLEQNode, i: nat)
      requires Valid() && Has(n) && i < |n.dependencyList|
      ensures Has(n.dependencyList[i])
      ensures var g := Contents();
              n.functionCall in g && |g[n.functionCall].deps| == |n.dependencyList| &&
              g[n.functionCall].deps[i] == n.dependencyList[i].functionCall
    {
      HasNode(n);
      assert n.dependencyList[i] in n.dependencyList;
      hide Valid, Contents;
    }

    lemma {:induction false} Apart(a: FLEQNode, b: FLEQNode)
      requires Valid() && Has(a) && Has(b) && a != b
      ensures a.functionCall != b.functionCall
    {
    }

    lemma {:induction false} SameNode(a: FLEQNode, b: FLEQNode)
      requires Valid() && Has(a) && Has(b)
      ensures a == b <==> a.functionCall == b.functionCall
    {
    }

    lemma {:induction false} WithParent(n: FLEQNode, parent: FLEQNode, i: nat)
      requires Valid() && Has(n) && Has(parent)
      ensures HasAll(n.parentList + [parent])
      ensures i < |n.parentList| ==> HasAll(n.parentList[i := parent])
    {
    }
  }

  /** The graph with the dependencies of `p` and the parents of `nn` written over. */
  function Halfway(g: Graph, p: Value, nn: Value, deps: seq<Value>, parents: seq<Value>): Graph
    requires p in g && nn in g && p != nn
  {
    g[p := g[p].(deps := deps)][nn := g[nn].(parents := parents)]
  }

  /** Adding a value whose node is there already, and still empty, is adding it. */
  lemma {:induction false} InsertTwice(env: Program, v: Value)
    requires WellFormed(env) && v in env.values
    ensures var g := GetOrInsert(env, map[], v);
            Inside(env, map[]) && Inside(env, g) && AddTo(env, g, v) == AddTo(env, map[], v)
  {
    var empty: Graph := map[];
    InsertFacts(env, empty, v);
    AddToUnfolds(env, empty, v);
    AddToUnfolds(env, GetOrInsert(env, empty, v), v);
  }

  lemma {:induction false} FirstIsSlot(names: seq<Value>, i: nat, fn: Value)
    requires i <= |names| && (i < |names| ==> names[i] == fn) && forall j | 0 <= j < i :: names[j] != fn
    ensures SlotOf(names, fn) == if i < |names| then Slot(i) else None
    decreases |names|
  {
    FirstIs(names, i, fn);
    hide FirstOf;
  }

  lemma {:induction false} FirstIs(names: seq<Value>, i: nat, fn: Value)
    requires i <= |names| && (i < |names| ==> names[i] == fn) && forall j | 0 <= j < i :: names[j] != fn
    ensures FirstOf(names, fn) == i
    decreases |names|
  {
    if i > 0 {
      FirstIs(names[1..], i - 1, fn);
    }
  }

  /** The specification of replaceNodeWith, step by step. */
  lemma {:induction false} ReplaceSteps(g: Graph, fn: Value, nn: Value)
    requires CanReplace(g, fn, nn) && Mirrored(g) && Closed(g)
    ensures fn in g && nn in g && fn != nn && Nodes(g, g[fn].parents)
    ensures var h := Rewire(g, g[fn].parents, fn, nn, SlotOf(g[nn].parents, fn));
            var r := h[fn := h[fn].(parents := [])];
            var rank := LiftedRank(g, nn);
            Closed(r) && Nodes(r, [fn]) && Ranked(r, rank) && Below([fn], rank, rank(fn) + 1) &&
            Replace(g, fn, nn) == MarkDead(r, [fn], rank, rank(fn) + 1)
  {
    hide Rewire, SlotOf, Acyclic, Reaches, LiftedRank, MarkDead, Mirrored, Closed, Ranked;
    RewiredClosed(g, fn, nn);
    RewiredIsRanked(g, fn, nn);
    ParentsApart(g, fn, nn);
  }

  /** The first `i` positions replaced. */
  function Replaced(deps: seq<Value>, i: nat, fn: Value, nn: Value): (r: seq<Value>)
    requires i <= |deps|
    ensures |r| == |deps|
  {
    Subst(deps[..i], fn, nn) + deps[i..]
  }

  lemma {:induction false} HalfwayStarts(g: Graph, p: Value, fn: Value, nn: Value)
    requires p in g && nn in g && p != nn
    ensures Halfway(g, p, nn, Replaced(g[p].deps, 0, fn, nn), g[nn].parents) == g && g[p].deps[0..] == g[p].deps
  {
    assert Replaced(g[p].deps, 0, fn, nn) == g[p].deps;
  }

  lemma {:induction false} HalfwayAt(g: Graph, p: Value, nn: Value, deps: seq<Value>, parents: seq<Value>,
                                     deps': seq<Value>, parents': seq<Value>)
    requires p in g && nn in g && p != nn
    ensures var h := Halfway(g, p, nn, deps, parents);
            && p in h && nn in h && h[p].deps == deps && h[nn].parents == parents
            && h[p := h[p].(deps := deps')] == Halfway(g, p, nn, deps', parents)
            && h[nn := h[nn].(parents := parents')] == Halfway(g, p, nn, deps, parents')
  {
  }

  lemma {:induction false} HalfwayEnds(g: Graph, p: Value, fn: Value, nn: Value, slot: Slot, a: Adopting, i: nat)
    requires p in g && nn in g && p != nn && i == |g[p].deps|
    requires Adopt(a, p, Occurrences(g[p].deps[i..], fn)) ==
             Adopt(Adopting(g[nn].parents, slot), p, Occurrences(g[p].deps, fn))
    ensures (Halfway(g, p, nn, Replaced(g[p].deps, i, fn, nn), a.parents), a.slot) == RewireOne(g, p, fn, nn, slot)
  {
    assert g[p].deps[..i] == g[p].deps && Replaced(g[p].deps, i, fn, nn) == Subst(g[p].deps, fn, nn);
    assert Adopt(a, p, 0) == a;
  }

  lemma {:induction false} ReplacedNext(deps: seq<Value>, i: nat, fn: Value, nn: Value)
    requires i < |deps|
    ensures Replaced(deps, i, fn, nn)[i] == deps[i]
    ensures Replaced(deps, i + 1, fn, nn) ==
            if deps[i] == fn then Replaced(deps, i, fn, nn)[i := nn] else Replaced(deps, i, fn, nn)
  {
  }

  /** One entry of `p` among the parents of the new node. */
  function AdoptOnce(a: Adopting, p: Value): Adopting {
    if a.slot.Slot? && a.slot.index < |a.parents| then Adopting(a.parents[a.slot.index := p], None)
    else Adopting(a.parents + [p], None)
  }

  lemma {:induction false} AdoptUnfolds(a: Adopting, p: Value, deps: seq<Value>, i: nat, fn: Value)
    requires i < |deps|
    ensures AdoptOnce(a, p).slot == None
    ensures Adopt(a, p, Occurrences(deps[i..], fn)) ==
            Adopt(if deps[i] == fn then AdoptOnce(a, p) else a, p, Occurrences(deps[i + 1..], fn))
  {
    assert deps[i..][1..] == deps[i + 1..];
  }

  /** A sweep from here on, after `passed` has been collected. */
  function PassedOn(g: Graph, vs: seq<Value>, passed: seq<Value>): (Graph, seq<Value>)
    requires Closed(g) && Nodes(g, vs)
  {
    var (h, fwd) := Sweep(g, vs);
    (h, passed + fwd)
  }

  lemma {:induction false} SweepUnfolds(g: Graph, vs: seq<Value>, passed: seq<Value>)
    requires Closed(g) && Nodes(g, vs) && vs != []
    ensures vs[0] in g && Nodes(g, vs[1..])
    ensures HasLiveParent(g, vs[0]) ==> PassedOn(g, vs, passed) == PassedOn(g, vs[1..], passed)
    ensures !HasLiveParent(g, vs[0]) ==>
              var k := Kill(g, vs[0]);
              Closed(k) && Nodes(k, vs[1..]) && PassedOn(g, vs, passed) == PassedOn(k, vs[1..], passed + g[vs[0]].deps)
  {
    assert vs[0] in vs && forall x | x in vs[1..] :: x in vs;
    if !HasLiveParent(g, vs[0]) {
      var (h, fwd) := Sweep(Kill(g, vs[0]), vs[1..]);
      assert passed + (g[vs[0]].deps + fwd) == (passed + g[vs[0]].deps) + fwd;
    }
  }

  lemma {:induction false} NothingPassed(g: Graph, vs: seq<Value>, passed: seq<Value>)
    requires Closed(g) && Nodes(g, vs) && vs == []
    ensures PassedOn(g, vs, passed) == (g, passed)
  {
    assert passed + [] == passed;
  }

  lemma {:induction false} MarkDeadUnfolds(g: Graph, vs: seq<Value>, rank: Value -> nat, m: nat)
    requires Closed(g) && Nodes(g, vs) && Ranked(g, rank) && Below(vs, rank, m)
    ensures vs == [] ==> MarkDead(g, vs, rank, m) == g
    ensures vs != [] ==>
              var (h, fwd) := Sweep(g, vs);
              m > 0 && Ranked(h, rank) && Below(fwd, rank, m - 1) &&
                MarkDead(g, vs, rank, m) == MarkDead(h, fwd, rank, m - 1)
    ensures PassedOn(g, vs, []) == Sweep(g, vs)
  {
    if vs != [] {
      SweepDescends(g, vs, rank, m);
    }
    var (h, fwd) := Sweep(g, vs);
    assert [] + fwd == fwd;
  }
}
