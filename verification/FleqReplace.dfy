/** replaceNodeWith: a new node takes the place of `fn` in the dependency lists of all
    the parents of `fn`, and `fn` is cut off and dies. */
module FleqReplace {
  import opened FleqSpec
  import opened FleqBuilding
  import opened FleqDeath
  import opened FleqAcyclic

  /** `fn` replaced by `nn`, position by position. */
  function Subst(deps: seq<Value>, fn: Value, nn: Value): (r: seq<Value>)
    ensures |r| == |deps|
    ensures forall i | 0 <= i < |deps| :: r[i] == if deps[i] == fn then nn else deps[i]
  {
    seq(|deps|, i requires 0 <= i < |deps| => if deps[i] == fn then nn else deps[i])
  }

  function Occurrences(deps: seq<Value>, x: Value): nat {
    if deps == [] then 0 else (if deps[0] == x then 1 else 0) + Occurrences(deps[1..], x)
  }

  /** The position of the first `fn`, or the length. */
  function FirstOf(parents: seq<Value>, fn: Value): (i: nat)
    ensures i <= |parents| && (i < |parents| ==> parents[i] == fn) && (i == |parents| ==> fn !in parents)
  {
    if parents == [] then 0 else if parents[0] == fn then 0 else 1 + FirstOf(parents[1..], fn)
  }

  /** The parent list of the new node while `p` is written into it `k` times.  A slot that
      still holds `fn` is overwritten first; None means that it is used up. */
  datatype Slot = None | Slot(index: nat)
  datatype Adopting = Adopting(parents: seq<Value>, slot: Slot)

  function Adopt(a: Adopting, p: Value, k: nat): Adopting
    decreases k
  {
    if k == 0 then a
    else if a.slot.Slot? && a.slot.index < |a.parents| then
      Adopt(Adopting(a.parents[a.slot.index := p], None), p, k - 1)
    else Adopt(Adopting(a.parents + [p], None), p, k - 1)
  }

  /** The loop over the parents of `fn`. */
  function Rewire(g: Graph, ps: seq<Value>, fn: Value, nn: Value, slot: Slot): (r: Graph)
    requires nn in g && Nodes(g, ps)
    ensures r.Keys == g.Keys
    decreases |ps|
  {
    if ps == [] then g
    else if ps[0] == nn then Rewire(g, ps[1..], fn, nn, slot)
    else
      var (h, slot') := RewireOne(g, ps[0], fn, nn, slot);
      Rewire(h, ps[1..], fn, nn, slot')
  }

  /** One parent: its dependency list, and as many entries in the new node's parents. */
  function RewireOne(g: Graph, p: Value, fn: Value, nn: Value, slot: Slot): (r: (Graph, Slot))
    requires nn in g && p in g
    ensures r.0.Keys == g.Keys
  {
    var a := Adopt(Adopting(g[nn].parents, slot), p, Occurrences(g[p].deps, fn));
    var h := g[p := g[p].(deps := Subst(g[p].deps, fn, nn))];
    (h[nn := h[nn].(parents := a.parents)], a.slot)
  }

  function SlotOf(parents: seq<Value>, fn: Value): Slot {
    if FirstOf(parents, fn) < |parents| then Slot(FirstOf(parents, fn)) else None
  }

  function Detach(g: Graph, fn: Value): Graph
    requires fn in g
  {
    g[fn := g[fn].(parents := [])]
  }

  /** The graph once `fn` is cut off, before the deaths. */
  function Rewired(g: Graph, fn: Value, nn: Value): (r: Graph)
    requires fn in g && nn in g && Nodes(g, g[fn].parents)
    ensures r.Keys == g.Keys
  {
    Detach(Rewire(g, g[fn].parents, fn, nn, SlotOf(g[nn].parents, fn)), fn)
  }

  // ----- Counting -----

  lemma {:induction false} OccurrencesIsCount(deps: seq<Value>, x: Value)
    ensures Occurrences(deps, x) == multiset(deps)[x]
    decreases |deps|
  {
    if deps != [] {
      assert deps == [deps[0]] + deps[1..];
      OccurrencesIsCount(deps[1..], x);
    }
  }

  lemma {:induction false} SubstCount(deps: seq<Value>, fn: Value, nn: Value, x: Value)
    requires fn != nn
    ensures multiset(Subst(deps, fn, nn))[x] ==
            if x == fn then 0 else multiset(deps)[x] + if x == nn then multiset(deps)[fn] else 0
  {
    OccurrencesIsCount(Subst(deps, fn, nn), x);
    OccurrencesIsCount(deps, x);
    OccurrencesIsCount(deps, fn);
    SubstOccurrences(deps, fn, nn, x);
  }

  lemma {:induction false} SubstOccurrences(deps: seq<Value>, fn: Value, nn: Value, x: Value)
    requires fn != nn
    ensures Occurrences(Subst(deps, fn, nn), x) ==
            if x == fn then 0 else Occurrences(deps, x) + if x == nn then Occurrences(deps, fn) else 0
    decreases |deps|
  {
    if deps != [] {
      SubstOccurrences(deps[1..], fn, nn, x);
      assert Subst(deps, fn, nn)[1..] == Subst(deps[1..], fn, nn);
    }
  }

  /** Writing `p` k times adds k entries of it and takes one `fn` away if the slot is used. */
  lemma {:induction false} AdoptCount(a: Adopting, p: Value, k: nat, fn: Value, x: Value)
    requires a.slot.Slot? ==> a.slot.index < |a.parents| && a.parents[a.slot.index] == fn
    ensures var r := Adopt(a, p, k);
            multiset(r.parents)[x] + (if x == fn && a.slot.Slot? && k > 0 then 1 else 0) ==
            multiset(a.parents)[x] + (if x == p then k else 0)
    ensures var r := Adopt(a, p, k);
            if k == 0 then r == a else r.slot == None
    decreases k
  {
    if k > 0 {
      if a.slot.Slot? {
        var next := a.parents[a.slot.index := p];
        UpdateCount(a.parents, a.slot.index, p, x);
        AdoptCount(Adopting(next, None), p, k - 1, fn, x);
      } else {
        assert multiset(a.parents + [p]) == multiset(a.parents) + multiset{p};
        AdoptCount(Adopting(a.parents + [p], None), p, k - 1, fn, x);
      }
    }
  }

  lemma {:induction false} UpdateCount(s: seq<Value>, i: nat, p: Value, x: Value)
    requires i < |s|
    ensures multiset(s[i := p])[x] + (if x == s[i] then 1 else 0) == multiset(s)[x] + (if x == p then 1 else 0)
  {
    assert multiset(s[i := p]) == multiset(s) - multiset{s[i]} + multiset{p};
  }

  // ----- The invariant of the loop over the parents -----

  /** Types, and all parent lists but that of the new node, are as they were. */
  ghost predicate OthersKept(g: Graph, h: Graph, nn: Value)
    requires h.Keys == g.Keys
  {
    forall x | x in g :: h[x].ty == g[x].ty && (x != nn ==> h[x].parents == g[x].parents)
  }

  /** The dependency lists of the parents in `met` are rewired, the others are as they were. */
  ghost predicate DepsMoved(g: Graph, h: Graph, fn: Value, nn: Value, met: set<Value>)
    requires h.Keys == g.Keys
  {
    forall x | x in g :: h[x].deps == if x in met then Subst(g[x].deps, fn, nn) else g[x].deps
  }

  ghost predicate FreeSlot(g: Graph, h: Graph, fn: Value, nn: Value, slot: Slot)
    requires nn in g && nn in h
  {
    slot.Slot? ==> slot.index < |g[nn].parents| && g[nn].parents[slot.index] == fn && h[nn].parents == g[nn].parents
  }

  /** The slot is used up exactly when there was one and an edge has moved. */
  ghost predicate SlotUsed(g: Graph, fn: Value, nn: Value, met: set<Value>, slot: Slot)
    requires nn in g
  {
    slot.None? <==> (fn in g[nn].parents ==> exists p :: p in met && p in g && fn in g[p].deps)
  }

  /** `x` is entered once for each of its edges that moved; one entry of `fn` is gone once
      the slot is used. */
  ghost predicate ParentsMoved(g: Graph, h: Graph, fn: Value, nn: Value, met: set<Value>, slot: Slot, x: Value)
    requires x in g && nn in g && nn in h
  {
    multiset(h[nn].parents)[x] + (if x == fn && fn in g[nn].parents && slot.None? then 1 else 0) ==
    multiset(g[nn].parents)[x] + (if x in met then multiset(g[x].deps)[fn] else 0)
  }

  ghost predicate AllParentsMoved(g: Graph, h: Graph, fn: Value, nn: Value, met: set<Value>, slot: Slot)
    requires nn in g && nn in h
  {
    forall x | x in g :: ParentsMoved(g, h, fn, nn, met, slot, x)
  }

  /** Where the loop stands. */
  ghost predicate Moved(g: Graph, h: Graph, fn: Value, nn: Value, met: set<Value>, slot: Slot) {
    && h.Keys == g.Keys && nn in g
    && OthersKept(g, h, nn) && DepsMoved(g, h, fn, nn, met) && FreeSlot(g, h, fn, nn, slot)
    && SlotUsed(g, fn, nn, met, slot) && AllParentsMoved(g, h, fn, nn, met, slot)
  }

  lemma {:induction false} SubstTwice(deps: seq<Value>, fn: Value, nn: Value)
    requires fn != nn
    ensures Subst(Subst(deps, fn, nn), fn, nn) == Subst(deps, fn, nn)
    ensures fn !in Subst(deps, fn, nn) && (fn !in deps ==> Subst(deps, fn, nn) == deps)
  {
  }

  /** One parent, first met: what one turn of the loop does to the graph. */
  lemma {:induction false} RewireOneFacts(g: Graph, h: Graph, p: Value, fn: Value, nn: Value, met: set<Value>,
          slot: Slot)
    requires h.Keys == g.Keys && nn in g && p in g && p != nn && p !in met
    requires OthersKept(g, h, nn) && DepsMoved(g, h, fn, nn, met)
    ensures var (r, slot') := RewireOne(h, p, fn, nn, slot);
            var a := Adopt(Adopting(h[nn].parents, slot), p, Occurrences(g[p].deps, fn));
            && OthersKept(g, r, nn) && DepsMoved(g, r, fn, nn, met + {p})
            && r[nn].parents == a.parents && slot' == a.slot
  {
  }

  lemma {:induction false} MeetParent(g: Graph, h: Graph, p: Value, fn: Value, nn: Value, met: set<Value>, slot: Slot)
    requires Moved(g, h, fn, nn, met, slot) && p in g && p != nn && p != fn && fn != nn && p !in met
    ensures var (r, slot') := RewireOne(h, p, fn, nn, slot); Moved(g, r, fn, nn, met + {p}, slot')
  {
    hide OthersKept, DepsMoved, RewireOne, Adopt;
    var k := Occurrences(g[p].deps, fn);
    var (r, slot') := RewireOne(h, p, fn, nn, slot);
    OccurrencesIsCount(g[p].deps, fn);
    RewireOneFacts(g, h, p, fn, nn, met, slot);
    AdoptedSlot(g, h, p, fn, nn, met, slot, r, slot', k);
    forall x | x in g ensures ParentsMoved(g, r, fn, nn, met + {p}, slot', x) {
      assert ParentsMoved(g, h, fn, nn, met, slot, x);
      AdoptedCount(g, h, p, fn, nn, met, slot, r, slot', k, x);
    }
  }

  lemma {:induction false} AdoptedSlot(g: Graph, h: Graph, p: Value, fn: Value, nn: Value, met: set<Value>, slot: Slot,
                                       r: Graph, slot': Slot, k: nat)
    requires nn in g && nn in h && nn in r && p in g
    requires FreeSlot(g, h, fn, nn, slot) && SlotUsed(g, fn, nn, met, slot) && k == multiset(g[p].deps)[fn]
    requires var a := Adopt(Adopting(h[nn].parents, slot), p, k); r[nn].parents == a.parents && slot' == a.slot
    ensures FreeSlot(g, r, fn, nn, slot') && SlotUsed(g, fn, nn, met + {p}, slot')
  {
    hide Adopt;
    AdoptCount(Adopting(h[nn].parents, slot), p, k, fn, p);
    if k > 0 {
      assert fn in g[p].deps && p in met + {p};
    } else {
      assert fn !in g[p].deps;
      assert forall x | x in met + {p} && x in g && fn in g[x].deps :: x in met;
      assert forall x | x in met :: x in met + {p};
    }
  }

  lemma {:induction false} AdoptedCount(g: Graph, h: Graph, p: Value, fn: Value, nn: Value, met: set<Value>, slot: Slot,
                                        r: Graph, slot': Slot, k: nat, x: Value)
    requires nn in g && nn in h && nn in r && p in g && x in g && p !in met
    requires FreeSlot(g, h, fn, nn, slot) && SlotUsed(g, fn, nn, met, slot) && k == multiset(g[p].deps)[fn]
    requires var a := Adopt(Adopting(h[nn].parents, slot), p, k); r[nn].parents == a.parents && slot' == a.slot
    requires ParentsMoved(g, h, fn, nn, met, slot, x)
    ensures ParentsMoved(g, r, fn, nn, met + {p}, slot', x)
  {
    hide Adopt, SlotUsed;
    AdoptCount(Adopting(h[nn].parents, slot), p, k, fn, x);
  }

  /** A parent that is listed again is already rewired. */
  lemma {:induction false} MeetAgain(g: Graph, h: Graph, p: Value, fn: Value, nn: Value, met: set<Value>, slot: Slot)
    requires Moved(g, h, fn, nn, met, slot) && p in g && fn != nn && p in met
    ensures RewireOne(h, p, fn, nn, slot) == (h, slot)
  {
    SubstTwice(g[p].deps, fn, nn);
    OccurrencesIsCount(h[p].deps, fn);
    var d := h[p := h[p].(deps := Subst(h[p].deps, fn, nn))];
    assert d == h;
    assert d[nn := d[nn].(parents := h[nn].parents)] == h;
  }

  function Met(ps: seq<Value>, nn: Value): set<Value> {
    set p | p in ps && p != nn
  }

  lemma {:induction false} RewireMoves(g: Graph, h: Graph, ps: seq<Value>, fn: Value, nn: Value, met: set<Value>,
          slot: Slot)
    returns (end: Slot)
    requires Moved(g, h, fn, nn, met, slot) && nn in h && Nodes(h, ps) && fn != nn && fn !in ps
    ensures Moved(g, Rewire(h, ps, fn, nn, slot), fn, nn, met + Met(ps, nn), end)
    decreases |ps|
  {
    hide Moved, RewireOne, Rewire;
    RewireUnfolds(h, ps, fn, nn, slot);
    if ps == [] {
      assert met + Met(ps, nn) == met;
      end := slot;
    } else {
      var p, tail := ps[0], ps[1..];
      assert ps == [p] + tail;
      if p == nn {
        assert Met(ps, nn) == Met(tail, nn);
        end := RewireMoves(g, h, tail, fn, nn, met, slot);
      } else {
        assert met + Met(ps, nn) == (met + {p}) + Met(tail, nn);
        MovedKeys(g, h, fn, nn, met, slot);
        var (r, slot') := RewireOne(h, p, fn, nn, slot);
        if p in met {
          assert met + {p} == met;
          MeetAgain(g, h, p, fn, nn, met, slot);
        } else {
          MeetParent(g, h, p, fn, nn, met, slot);
        }
        end := RewireMoves(g, r, tail, fn, nn, met + {p}, slot');
      }
    }
  }

  lemma {:induction false} RewireUnfolds(g: Graph, ps: seq<Value>, fn: Value, nn: Value, slot: Slot)
    requires nn in g && Nodes(g, ps)
    ensures ps == [] ==> Rewire(g, ps, fn, nn, slot) == g
    ensures ps != [] ==> ps[0] in g && Nodes(g, ps[1..])
    ensures ps != [] && ps[0] == nn ==> Rewire(g, ps, fn, nn, slot) == Rewire(g, ps[1..], fn, nn, slot)
    ensures ps != [] && ps[0] != nn ==>
              var (h, slot') := RewireOne(g, ps[0], fn, nn, slot);
              h.Keys == g.Keys && Nodes(h, ps[1..]) && Rewire(g, ps, fn, nn, slot) == Rewire(h, ps[1..], fn, nn, slot')
  {
    hide RewireOne;
    if ps != [] {
      assert ps[0] in ps && forall x | x in ps[1..] :: x in ps;
    }
  }

  lemma {:induction false} MovedKeys(g: Graph, h: Graph, fn: Value, nn: Value, met: set<Value>, slot: Slot)
    requires Moved(g, h, fn, nn, met, slot)
    ensures h.Keys == g.Keys
  {
  }

  // ----- The rewired graph -----

  /** The new node is another one, and reaches neither `fn` nor a parent of `fn`. */
  ghost predicate CanReplace(g: Graph, fn: Value, nn: Value) {
    && fn in g && nn in g && fn != nn && Acyclic(g)
    && !Reaches(g, nn, fn)
    && forall p | p in g[fn].parents :: !Reaches(g, nn, p)
  }

  lemma {:induction false} ParentsApart(g: Graph, fn: Value, nn: Value)
    requires CanReplace(g, fn, nn) && Mirrored(g)
    ensures nn !in g[fn].parents && fn !in g[fn].parents && Nodes(g, g[fn].parents)
    ensures Met(g[fn].parents, nn) == SetOf(g[fn].parents)
  {
    ReachesSelf(g, nn);
    if fn in g[fn].parents {
      assert Edge(g, fn, fn);
      ReachesSelf(g, fn);
      assert false;
    }
  }

  /** Edges and types of the rewired graph: `fn` is gone from every former parent, its own
      parent list is empty, and only the new node's parent list has grown. */
  lemma {:induction false} RewiredShape(g: Graph, fn: Value, nn: Value)
    requires CanReplace(g, fn, nn) && Mirrored(g) && Closed(g)
    ensures Nodes(g, g[fn].parents)
    ensures var r := Rewired(g, fn, nn);
            && (forall x | x in g :: r[x].ty == g[x].ty)
            && (forall x | x in g :: r[x].deps == if x in g[fn].parents then Subst(g[x].deps, fn, nn) else g[x].deps)
            && r[fn].parents == []
            && (forall x | x in g && x != nn && x != fn :: r[x].parents == g[x].parents)
    ensures var r := Rewired(g, fn, nn);
            exists end :: SlotUsed(g, fn, nn, SetOf(g[fn].parents), end) &&
                          AllParentsMoved(g, r, fn, nn, SetOf(g[fn].parents), end)
  {
    var ps, slot := g[fn].parents, SlotOf(g[nn].parents, fn);
    ParentsApart(g, fn, nn);
    MovedAtStart(g, fn, nn);
    var end := RewireMoves(g, g, ps, fn, nn, {}, slot);
    assert {} + Met(ps, nn) == SetOf(ps);
    hide Rewire;
    DetachKeepsCounts(g, Rewire(g, ps, fn, nn, slot), fn, nn, SetOf(ps), end);
  }

  lemma {:induction false} MovedAtStart(g: Graph, fn: Value, nn: Value)
    requires nn in g
    ensures Moved(g, g, fn, nn, {}, SlotOf(g[nn].parents, fn))
  {
  }

  lemma {:induction false} DetachKeepsCounts(g: Graph, h: Graph, fn: Value, nn: Value, met: set<Value>, end: Slot)
    requires nn in g && nn in h && fn in h && fn != nn && AllParentsMoved(g, h, fn, nn, met, end)
    ensures AllParentsMoved(g, Detach(h, fn), fn, nn, met, end)
  {
    forall x | x in g ensures ParentsMoved(g, Detach(h, fn), fn, nn, met, end, x) {
      assert ParentsMoved(g, h, fn, nn, met, end, x);
    }
  }

  /** The edges whose parent entry is missing once `fn` is cut off: those that were
      missing before, but for the edges into `fn` that moved, and one more from `fn` to
      the new node if some parent of `fn` took its entry. */
  ghost function MissingAfter(g: Graph, fn: Value, nn: Value, lost: Edges, p: Value, c: Value): nat
    requires fn in g && nn in g
  {
    if c == fn && p in g[fn].parents then 0
    else lost[(p, c)] + if p == fn && c == nn && fn in g[nn].parents && g[fn].parents != [] then 1 else 0
  }

  /** After the rewiring every edge is counted alike in both directions, but for the
      missing ones. */
  lemma {:induction false} RewiredBalance(g: Graph, fn: Value, nn: Value, lost: Edges, p: Value, c: Value)
    requires CanReplace(g, fn, nn) && Mirrored(g) && Closed(g) && Balanced(g, lost) && p in g && c in g
    ensures Nodes(g, g[fn].parents)
    ensures var r := Rewired(g, fn, nn);
            multiset(r[p].deps)[c] == multiset(r[c].parents)[p] + MissingAfter(g, fn, nn, lost, p, c)
  {
    hide Rewired, Acyclic, Reaches;
    RewiredShape(g, fn, nn);
    ParentsApart(g, fn, nn);
    assert BalancedAt(g, lost, p, c) && BalancedAt(g, lost, p, fn);
    assert p in g[fn].parents ==> fn in g[p].deps;
    SubstCount(g[p].deps, fn, nn, c);
    if c == nn {
      var r := Rewired(g, fn, nn);
      var end :| SlotUsed(g, fn, nn, SetOf(g[fn].parents), end) &&
                 AllParentsMoved(g, r, fn, nn, SetOf(g[fn].parents), end);
      assert ParentsMoved(g, r, fn, nn, SetOf(g[fn].parents), end, p);
      SlotUsedMeans(g, fn, nn, end);
    }
  }

  lemma {:induction false} SlotUsedMeans(g: Graph, fn: Value, nn: Value, end: Slot)
    requires nn in g && fn in g && Mirrored(g) && SlotUsed(g, fn, nn, SetOf(g[fn].parents), end)
    ensures fn in g[nn].parents ==> (end.None? <==> g[fn].parents != [])
  {
    if g[fn].parents != [] {
      var p := g[fn].parents[0];
      assert p in g[fn].parents && fn in g[p].deps;
    }
  }

  // ----- No cycle appears -----

  /** Nodes that the new node does not reach are lifted above it. */
  ghost function LiftedRank(g: Graph, nn: Value): Value -> nat {
    v => if Reaches(g, nn, v) then Depth(g, v) else Depth(g, v) + Depth(g, nn) + 1
  }

  lemma {:induction false} RewiredIsRanked(g: Graph, fn: Value, nn: Value)
    requires CanReplace(g, fn, nn) && Mirrored(g) && Closed(g)
    ensures Nodes(g, g[fn].parents) && Ranked(Rewired(g, fn, nn), LiftedRank(g, nn))
  {
    hide Rewired;
    RewiredShape(g, fn, nn);
    var r, rank := Rewired(g, fn, nn), LiftedRank(g, nn);
    forall v, c | v in r && c in r[v].deps ensures rank(c) < rank(v) {
      if c in g[v].deps {
        LiftedFalls(g, nn, v, c);
      } else {
        assert c == nn && v in g[fn].parents;
        ReachesSelf(g, nn);
      }
    }
  }

  lemma {:induction false} LiftedFalls(g: Graph, nn: Value, v: Value, c: Value)
    requires Acyclic(g) && v in g && c in g[v].deps
    ensures LiftedRank(g, nn)(c) < LiftedRank(g, nn)(v)
  {
    assert Edge(g, v, c);
    DepthFalls(g, v, c);
    if Reaches(g, nn, v) {
      ReachesOn(g, nn, v, c);
    }
  }

  lemma {:induction false} RewiredStaysAcyclic(g: Graph, fn: Value, nn: Value)
    requires CanReplace(g, fn, nn) && Mirrored(g) && Closed(g)
    ensures Nodes(g, g[fn].parents) && Acyclic(Rewired(g, fn, nn))
  {
    hide Rewired;
    RewiredIsRanked(g, fn, nn);
    RankedIsAcyclic(Rewired(g, fn, nn), LiftedRank(g, nn));
  }

  // ----- replaceNodeWith -----

  lemma {:induction false} RewiredClosed(g: Graph, fn: Value, nn: Value)
    requires CanReplace(g, fn, nn) && Mirrored(g) && Closed(g)
    ensures Nodes(g, g[fn].parents) && Closed(Rewired(g, fn, nn))
  {
    hide Rewired, Acyclic, Reaches;
    RewiredShape(g, fn, nn);
    var r := Rewired(g, fn, nn);
    forall v, c | v in r && c in r[v].deps ensures c in r {
      assert Nodes(g, g[v].deps);
    }
  }

  /** replaceNodeWith(fn, nn) on a graph that has the new node already. */
  ghost function Replace(g: Graph, fn: Value, nn: Value): Graph
    requires CanReplace(g, fn, nn) && Mirrored(g) && Closed(g)
  {
    RewiredClosed(g, fn, nn);
    RewiredIsRanked(g, fn, nn);
    var rank := LiftedRank(g, nn);
    MarkDead(Rewired(g, fn, nn), [fn], rank, rank(fn) + 1)
  }

  lemma {:induction false} AdoptNodes(g: Graph, a: Adopting, p: Value, k: nat)
    requires Nodes(g, a.parents) && p in g
    ensures Nodes(g, Adopt(a, p, k).parents)
    decreases k
  {
    if k > 0 {
      if a.slot.Slot? && a.slot.index < |a.parents| {
        AdoptNodes(g, Adopting(a.parents[a.slot.index := p], None), p, k - 1);
      } else {
        AdoptNodes(g, Adopting(a.parents + [p], None), p, k - 1);
      }
    }
  }

  lemma {:induction false} RewireNodes(h: Graph, ps: seq<Value>, fn: Value, nn: Value, slot: Slot)
    requires nn in h && Nodes(h, ps) && Nodes(h, h[nn].parents)
    ensures Nodes(h, Rewire(h, ps, fn, nn, slot)[nn].parents)
    decreases |ps|
  {
    hide Rewire, Adopt;
    RewireUnfolds(h, ps, fn, nn, slot);
    if ps != [] {
      if ps[0] == nn {
        RewireNodes(h, ps[1..], fn, nn, slot);
      } else {
        var (r, slot') := RewireOne(h, ps[0], fn, nn, slot);
        AdoptNodes(h, Adopting(h[nn].parents, slot), ps[0], Occurrences(h[ps[0]].deps, fn));
        RewireNodes(r, ps[1..], fn, nn, slot');
      }
    }
  }

  lemma {:induction false} RewiredMirrored(g: Graph, fn: Value, nn: Value, lost: Edges)
    requires CanReplace(g, fn, nn) && Mirrored(g) && Closed(g) && Balanced(g, lost)
    ensures Nodes(g, g[fn].parents) && Mirrored(Rewired(g, fn, nn))
  {
    RewiredShape(g, fn, nn);
    RewireNodes(g, g[fn].parents, fn, nn, SlotOf(g[nn].parents, fn));
    var r := Rewired(g, fn, nn);
    assert Nodes(g, r[nn].parents);
    hide Rewired, Acyclic, Reaches;
    forall c, p | c in r && p in r[c].parents ensures p in r && c in r[p].deps {
      RewiredBalance(g, fn, nn, lost, p, c);
    }
  }

  /** Only dead nodes have edges whose parent entry is missing. */
  ghost predicate DeadSources(g: Graph, lost: Edges) {
    forall e | e in lost :: IsDead(g, e.0)
  }

  ghost predicate LiveParentOf(g: Graph, fn: Value, p: Value) {
    fn in g && p in g[fn].parents && !IsDead(g, p)
  }

  /** A live parent of `fn` becomes a live parent of the new node. */
  lemma {:induction false} NewNodeAdopted(g: Graph, fn: Value, nn: Value, lost: Edges, p: Value)
    requires CanReplace(g, fn, nn) && Mirrored(g) && Closed(g) && Balanced(g, lost) && DeadSources(g, lost) &&
             LiveParentOf(g, fn, p)
    ensures Nodes(g, g[fn].parents)
    ensures p in Rewired(g, fn, nn)[nn].parents && !IsDead(Rewired(g, fn, nn), p)
  {
    hide Rewired, Acyclic, Reaches;
    ParentsApart(g, fn, nn);
    RewiredShape(g, fn, nn);
    RewiredBalance(g, fn, nn, lost, p, nn);
    var r := Rewired(g, fn, nn);
    assert fn in g[p].deps;
    var i :| 0 <= i < |g[p].deps| && g[p].deps[i] == fn;
    assert r[p].deps[i] == nn;
  }

  /** What is not said by the shape: which entries the new node's parent list has. */
  lemma {:induction false} ParentsOfRewired(g: Graph, fn: Value, nn: Value, lost: Edges, x: Value, q: Value)
    requires CanReplace(g, fn, nn) && Mirrored(g) && Closed(g) && Balanced(g, lost) && x in g && x != fn
    ensures Nodes(g, g[fn].parents)
    ensures var h := Rewired(g, fn, nn);
            && (q in g[x].parents && !(x == nn && q == fn) ==> q in h[x].parents)
            && (q in h[x].parents ==> q in g[x].parents || (x == nn && q in g[fn].parents))
  {
    hide Rewired, Acyclic, Reaches, Mirrored, Closed, SlotUsed;
    RewiredShape(g, fn, nn);
    var r := Rewired(g, fn, nn);
    if x == nn {
      RewiredMirrored(g, fn, nn, lost);
      if q in g {
        var end :| SlotUsed(g, fn, nn, SetOf(g[fn].parents), end) &&
                   AllParentsMoved(g, r, fn, nn, SetOf(g[fn].parents), end);
        assert ParentsMoved(g, r, fn, nn, SetOf(g[fn].parents), end, q);
      } else if q in g[nn].parents {
        MirroredAt(g, nn, q);
      } else if q in r[nn].parents {
        MirroredAt(r, nn, q);
      }
    }
  }

  lemma {:induction false} MirroredAt(g: Graph, c: Value, p: Value)
    requires Mirrored(g) && c in g && p in g[c].parents
    ensures p in g && c in g[p].deps
  {
  }

  // ----- Who dies with it -----

  /** Everything below `fn` or below the new node. */
  ghost function BelowBoth(g: Graph, fn: Value, nn: Value): set<Value> {
    set x | x in g && (Reaches(g, fn, x) || Reaches(g, nn, x))
  }

  lemma {:induction false} BelowBothIsClosed(g: Graph, fn: Value, nn: Value)
    requires CanReplace(g, fn, nn) && Mirrored(g) && Closed(g)
    ensures Nodes(g, g[fn].parents) && ClosedZone(Rewired(g, fn, nn), BelowBoth(g, fn, nn))
    ensures fn in BelowBoth(g, fn, nn) && forall p | p in g[fn].parents :: p !in BelowBoth(g, fn, nn)
  {
    hide Rewired, Reaches;
    RewiredShape(g, fn, nn);
    ReachesSelf(g, fn);
    ReachesSelf(g, nn);
    var r, zone := Rewired(g, fn, nn), BelowBoth(g, fn, nn);
    forall p, c | p in zone && p in r && c in r[p].deps ensures c in zone {
      if c != nn {
        assert Edge(g, p, c);
        BelowStep(g, fn, nn, p, c);
      }
    }
    forall p | p in g[fn].parents ensures p !in zone {
      assert Edge(g, p, fn);
    }
  }

  lemma {:induction false} BelowStep(g: Graph, fn: Value, nn: Value, p: Value, x: Value)
    requires (Reaches(g, fn, p) || Reaches(g, nn, p)) && Edge(g, p, x)
    ensures Reaches(g, fn, x) || Reaches(g, nn, x)
  {
    if Reaches(g, fn, p) {
      ReachesOn(g, fn, p, x);
    } else {
      ReachesOn(g, nn, p, x);
    }
  }

  /** What setNodesAsDead marks at the end of replaceNodeWith. */
  ghost function ReplaceSweeps(g: Graph, fn: Value, nn: Value): set<Value>
    requires CanReplace(g, fn, nn) && Mirrored(g) && Closed(g)
  {
    RewiredClosed(g, fn, nn);
    RewiredIsRanked(g, fn, nn);
    var rank := LiftedRank(g, nn);
    Swept(Rewired(g, fn, nn), [fn], rank, rank(fn) + 1)
  }

  /** replaceNodeWith on any graph without cycles whose edges are counted: what is marked is
      exactly what the rewired graph calls for, said without any order; `fn` dies, only nodes
      below it or below the new node are marked, and the parents of `fn` stay as they were. */
  lemma {:induction false} ReplaceExact(g: Graph, fn: Value, nn: Value, lost: Edges)
    requires CanReplace(g, fn, nn) && Mirrored(g) && Closed(g) && Balanced(g, lost)
    ensures Nodes(g, g[fn].parents)
    ensures var h, r, s := Rewired(g, fn, nn), Replace(g, fn, nn), ReplaceSweeps(g, fn, nn);
            && OnlyDeaths(h, r) && SweptOf(h, [fn], s) && DeadBy(h, r, s)
            && fn in s && s <= BelowBoth(g, fn, nn) && IsDead(r, fn)
            && (forall p | p in g[fn].parents :: p !in s && IsDead(r, p) == IsDead(g, p))
    ensures Justified(Rewired(g, fn, nn), Replace(g, fn, nn)) && Decided(Rewired(g, fn, nn), Replace(g, fn, nn), [fn])
  {
    hide Rewired, Acyclic, Reaches, LiftedRank, MarkDead, Swept, OnlyDeaths, Mirrored, Closed, Balanced, BelowBoth,
         Decided, ClosedZone, Justified, SweptOf, DeadBy;
    RewiredClosed(g, fn, nn);
    RewiredIsRanked(g, fn, nn);
    RewiredMirrored(g, fn, nn, lost);
    BelowBothIsClosed(g, fn, nn);
    var h, r, s, rank := Rewired(g, fn, nn), Replace(g, fn, nn), ReplaceSweeps(g, fn, nn), LiftedRank(g, nn);
    MarkDeadExact(h, [fn], rank, rank(fn) + 1);
    SweptStaysWithin(h, [fn], rank, s, BelowBoth(g, fn, nn));
    SweptDecides(h, r, [fn], s);
    DetachedIsSwept(g, fn, nn, s);
    DeadByAt(h, r, s, fn);
    forall p | p in g[fn].parents ensures p !in s && IsDead(r, p) == IsDead(g, p) {
      DeadByAt(h, r, s, p);
      SameDeath(g, fn, nn, p);
    }
  }

  lemma {:induction false} DeadByAt(h: Graph, r: Graph, s: set<Value>, x: Value)
    requires DeadBy(h, r, s) && x in h
    ensures IsDead(r, x) == (IsDead(h, x) || x in s)
  {
  }

  lemma {:induction false} SameDeath(g: Graph, fn: Value, nn: Value, x: Value)
    requires CanReplace(g, fn, nn) && Mirrored(g) && Closed(g) && x in g
    ensures Nodes(g, g[fn].parents) && IsDead(Rewired(g, fn, nn), x) == IsDead(g, x)
  {
    hide Rewired, Acyclic, Reaches;
    RewiredShape(g, fn, nn);
  }

  lemma {:induction false} DetachedIsSwept(g: Graph, fn: Value, nn: Value, s: set<Value>)
    requires CanReplace(g, fn, nn) && Mirrored(g) && Closed(g) && Nodes(g, g[fn].parents)
    requires SweptOf(Rewired(g, fn, nn), [fn], s)
    ensures fn in s
  {
    hide Rewired, Reaches, Acyclic;
    var h := Rewired(g, fn, nn);
    RewiredShape(g, fn, nn);
    assert Reached(h, [fn], s, fn) && AllIn(h, h[fn].parents, s);
  }

  /** So a node is dead afterwards if it was before or is called for, and the new node stays
      live if `fn` has a live parent.  In a quiet graph no death comes down by a node that was
      dead before. */
  lemma {:induction false} ReplaceMeaning(g: Graph, fn: Value, nn: Value, lost: Edges)
    requires CanReplace(g, fn, nn) && Mirrored(g) && Closed(g) && Balanced(g, lost) && DeadSources(g, lost)
    ensures Nodes(g, g[fn].parents)
    ensures var h, r, s := Rewired(g, fn, nn), Replace(g, fn, nn), ReplaceSweeps(g, fn, nn);
            && OnlyDeaths(h, r) && SweptOf(h, [fn], s)
            && (forall x | x in g :: IsDead(r, x) == (IsDead(g, x) || x in s))
            && IsDead(r, fn) && (forall p | p in g[fn].parents :: IsDead(r, p) == IsDead(g, p))
            && (HasLiveParent(g, fn) && !IsDead(g, nn) ==> !IsDead(r, nn))
            && (Quiet(g) ==> DeathsOf(h, [fn], Deaths(h, r)))
  {
    hide Rewired, Acyclic, Reaches, Replace, ReplaceSweeps, OnlyDeaths, DeathsOf, Quiet, Mirrored, Closed, Balanced,
         DeadSources, BelowBoth, Justified, Decided, Reached, HasLiveParent, SweptOf, DeadBy, CanReplace;
    CanReplaceNodes(g, fn, nn);
    ReplaceExact(g, fn, nn, lost);
    RewiredMirrored(g, fn, nn, lost);
    var h, r, s := Rewired(g, fn, nn), Replace(g, fn, nn), ReplaceSweeps(g, fn, nn);
    forall x | x in g ensures IsDead(r, x) == (IsDead(g, x) || x in s) {
      SameDeath(g, fn, nn, x);
      DeadByAt(h, r, s, x);
    }
    if HasLiveParent(g, fn) && !IsDead(g, nn) {
      AdoptedStaysLive(g, fn, nn, lost, h, r);
    }
    if Quiet(g) {
      forall x | Newly(h, r, x) ensures Reached(h, [fn], Deaths(h, r), x) {
        DeathIsCalledFor(g, fn, nn, lost, h, r, s, x);
      }
      ExactMeansDeathsOf(h, r, [fn]);
    }
  }

  lemma {:induction false} AdoptedStaysLive(g: Graph, fn: Value, nn: Value, lost: Edges, h: Graph, r: Graph)
    requires CanReplace(g, fn, nn) && Mirrored(g) && Closed(g) && Balanced(g, lost) && DeadSources(g, lost)
    requires Nodes(g, g[fn].parents) && h == Rewired(g, fn, nn) && OnlyDeaths(h, r) && Justified(h, r)
    requires forall p | p in g[fn].parents :: IsDead(r, p) == IsDead(g, p)
    requires HasLiveParent(g, fn)
    ensures HasLiveParent(r, nn) && (!IsDead(g, nn) ==> !IsDead(r, nn))
  {
    hide Rewired, Acyclic, Reaches, Mirrored, Closed, Balanced, DeadSources;
    var p :| p in g[fn].parents && !IsDead(g, p);
    NewNodeAdopted(g, fn, nn, lost, p);
    RewiredShape(g, fn, nn);
    assert p in r[nn].parents && !IsDead(r, p);
  }

  /** What dies in a quiet graph is `fn`, or a child of something else that dies. */
  lemma {:induction false} DeathIsCalledFor(g: Graph, fn: Value, nn: Value, lost: Edges, h: Graph, r: Graph,
                                            s: set<Value>, x: Value)
    requires CanReplace(g, fn, nn) && Mirrored(g) && Closed(g) && Balanced(g, lost) && Quiet(g)
    requires Nodes(g, g[fn].parents) && h == Rewired(g, fn, nn) && Mirrored(h) && IsDead(r, fn)
    requires OnlyDeaths(h, r) && Justified(h, r) && SweptOf(h, [fn], s) && DeadBy(h, r, s) && Newly(h, r, x)
    requires forall p | p in g[fn].parents :: p !in s
    ensures Reached(h, [fn], Deaths(h, r), x)
  {
    hide Rewired, Acyclic, Reaches, Balanced, Closed, Mirrored;
    RewiredShape(g, fn, nn);
    assert Reached(h, [fn], s, x);
    if x != fn {
      var p :| p in s && p in h && x in h[p].deps;
      if IsDead(h, p) {
        assert x in g[p].deps && IsDead(g, p) && !IsDead(g, x);
        assert HasLiveParent(g, x);
        var q :| q in g[x].parents && !IsDead(g, q);
        MirroredAt(g, x, q);
        if x == nn && q == fn {
          ParentsApart(g, fn, nn);
          assert fn in Deaths(h, r) && nn in h[fn].deps;
        } else {
          ParentsOfRewired(g, fn, nn, lost, x, q);
          assert HasLiveParent(h, x);
          LiveParentDied(h, r, [fn], x);
        }
      } else {
        assert p in Deaths(h, r);
      }
    }
  }

  // ----- Nodes that nothing needs -----

  /** Live, and without a live parent. */
  ghost predicate Unneeded(g: Graph, x: Value) {
    x in g && !IsDead(g, x) && !HasLiveParent(g, x)
  }

  /** Some node that is marked, dead already, lists `c`. */
  ghost predicate SweptOnto(g: Graph, s: set<Value>, c: Value) {
    exists p :: p in s && p in g && IsDead(g, p) && c in g[p].deps
  }

  /** The new node is left unneeded exactly if it was before, `fn` has no live parent, and no
      death comes down to it by a node that was dead before. */
  lemma {:induction false} LeftUnneededIff(g: Graph, fn: Value, nn: Value, lost: Edges)
    requires CanReplace(g, fn, nn) && Mirrored(g) && Closed(g) && Balanced(g, lost) && DeadSources(g, lost)
    ensures Unneeded(Replace(g, fn, nn), nn) <==>
            Unneeded(g, nn) && !HasLiveParent(g, fn) && !SweptOnto(g, ReplaceSweeps(g, fn, nn), nn)
    ensures Unneeded(g, nn) && !HasLiveParent(g, fn) && SweptOnto(g, ReplaceSweeps(g, fn, nn), nn) ==>
              IsDead(Replace(g, fn, nn), nn)
  {
    hide Rewired, Acyclic, Reaches, Replace, ReplaceSweeps, OnlyDeaths, Mirrored, Closed, Balanced, DeadSources,
         BelowBoth, Justified, Decided, HasLiveParent, SweptOf, DeadBy, SweptOnto, CanReplace;
    CanReplaceNodes(g, fn, nn);
    ReplaceExact(g, fn, nn, lost);
    RewiredMirrored(g, fn, nn, lost);
    SameDeath(g, fn, nn, nn);
    var h, r, s := Rewired(g, fn, nn), Replace(g, fn, nn), ReplaceSweeps(g, fn, nn);
    DeadByAt(h, r, s, nn);
    if HasLiveParent(g, fn) {
      AdoptedStaysLive(g, fn, nn, lost, h, r);
    } else if HasLiveParent(g, nn) {
      NeededIsDecided(g, fn, nn, lost, h, r);
    } else if !IsDead(g, nn) {
      StaysUnneededIff(g, fn, nn, lost, h, r, s);
    }
  }

  lemma {:induction false} CanReplaceNodes(g: Graph, fn: Value, nn: Value)
    requires CanReplace(g, fn, nn)
    ensures fn in g && nn in g && fn != nn
  {
  }

  /** In a quiet graph no death comes down so. */
  lemma {:induction false} QuietSpares(g: Graph, s: set<Value>, c: Value)
    requires Quiet(g) && Unneeded(g, c)
    ensures !SweptOnto(g, s, c)
  {
  }

  /** A node with a live parent keeps one, or is touched. */
  lemma {:induction false} NeededIsDecided(g: Graph, fn: Value, nn: Value, lost: Edges, h: Graph, r: Graph)
    requires CanReplace(g, fn, nn) && Mirrored(g) && Closed(g) && Balanced(g, lost)
    requires Nodes(g, g[fn].parents) && h == Rewired(g, fn, nn) && Mirrored(h) && IsDead(r, fn)
    requires OnlyDeaths(h, r) && Decided(h, r, [fn]) && HasLiveParent(g, nn)
    ensures IsDead(r, nn) || HasLiveParent(r, nn)
  {
    hide Rewired, Acyclic, Reaches, Balanced, Closed, Mirrored;
    RewiredShape(g, fn, nn);
    var q :| q in g[nn].parents && !IsDead(g, q);
    MirroredAt(g, nn, q);
    if q == fn {
      ParentsApart(g, fn, nn);
      assert Newly(h, r, fn) && Touched(h, r, [fn], nn);
    } else {
      ParentsOfRewired(g, fn, nn, lost, nn, q);
      MirroredAt(h, nn, q);
      if IsDead(r, q) {
        assert Newly(h, r, q) && Touched(h, r, [fn], nn);
      } else {
        assert q in r[nn].parents;
      }
    }
  }

  /** A node that is live without a live parent is marked only by nodes that were dead. */
  lemma {:induction false} StaysUnneededIff(g: Graph, fn: Value, nn: Value, lost: Edges, h: Graph, r: Graph,
                                            s: set<Value>)
    requires CanReplace(g, fn, nn) && Mirrored(g) && Closed(g) && Balanced(g, lost) && DeadSources(g, lost)
    requires Nodes(g, g[fn].parents) && h == Rewired(g, fn, nn)
    requires OnlyDeaths(h, r) && SweptOf(h, [fn], s) && DeadBy(h, r, s) && forall p | p in g[fn].parents :: p !in s
    requires Unneeded(g, nn) && !HasLiveParent(g, fn)
    ensures Unneeded(r, nn) <==> !SweptOnto(g, s, nn)
    ensures SweptOnto(g, s, nn) ==> IsDead(r, nn)
  {
    hide Rewired, Acyclic, Reaches, Closed, Mirrored, Balanced, DeadSources;
    RewiredShape(g, fn, nn);
    forall q | q in h[nn].parents ensures IsDead(h, q) && IsDead(r, q) {
      ParentsOfRewired(g, fn, nn, lost, nn, q);
      assert IsDead(g, q);
    }
    assert AllIn(h, h[nn].parents, s);
    assert nn in s <==> Reached(h, [fn], s, nn);
    if nn in s {
      var p :| p in s && p in h && nn in h[p].deps;
      assert nn in g[p].deps;
      if !IsDead(g, p) {
        LiveEdgeIsEntered(g, lost, p, nn);
      }
    }
    if SweptOnto(g, s, nn) {
      var p :| p in s && p in g && IsDead(g, p) && nn in g[p].deps;
      assert nn in h[p].deps;
    }
  }

  lemma {:induction false} LiveEdgeIsEntered(g: Graph, lost: Edges, p: Value, c: Value)
    requires Balanced(g, lost) && DeadSources(g, lost) && p in g && c in g && c in g[p].deps && !IsDead(g, p)
    ensures p in g[c].parents
  {
    assert BalancedAt(g, lost, p, c) && (p, c) !in lost;
  }

  /** A quiet graph stays quiet, unless the new node is left unneeded below dead parents of
      `fn`. */
  lemma {:induction false} ReplaceQuietIff(g: Graph, fn: Value, nn: Value, lost: Edges)
    requires CanReplace(g, fn, nn) && Mirrored(g) && Closed(g) && Balanced(g, lost) && DeadSources(g, lost) && Quiet(g)
    ensures Quiet(Replace(g, fn, nn)) <==> !(Unneeded(g, nn) && !HasLiveParent(g, fn) && g[fn].parents != [])
  {
    hide Rewired, Acyclic, Reaches, Replace, ReplaceSweeps, OnlyDeaths, Mirrored, Closed, Balanced, DeadSources,
         BelowBoth, Justified, Decided, HasLiveParent, Unneeded, Quiet, SweptOf, DeadBy, SweptOnto, CanReplace;
    CanReplaceNodes(g, fn, nn);
    ReplaceExact(g, fn, nn, lost);
    RewiredMirrored(g, fn, nn, lost);
    RewiredClosed(g, fn, nn);
    var h, r := Rewired(g, fn, nn), Replace(g, fn, nn);
    if Unneeded(g, nn) {
      QuietSpares(g, ReplaceSweeps(g, fn, nn), nn);
    }
    LeftUnneededIff(g, fn, nn, lost);
    if Unneeded(r, nn) && g[fn].parents != [] {
      UnneededIsNotQuiet(g, fn, nn, h, r);
    } else {
      NeededIsQuiet(g, fn, nn, lost, h, r);
    }
  }

  lemma {:induction false} UnneededIsNotQuiet(g: Graph, fn: Value, nn: Value, h: Graph, r: Graph)
    requires CanReplace(g, fn, nn) && Mirrored(g) && Closed(g) && Nodes(g, g[fn].parents) && h == Rewired(g, fn, nn)
    requires OnlyDeaths(h, r) && g[fn].parents != [] && !HasLiveParent(g, fn) && Unneeded(r, nn)
    requires forall p | p in g[fn].parents :: IsDead(r, p) == IsDead(g, p)
    ensures !Quiet(r)
  {
    hide Rewired, Acyclic, Reaches, Closed, Mirrored;
    RewiredShape(g, fn, nn);
    var p := g[fn].parents[0];
    assert p in g[fn].parents && IsDead(g, p);
    MirroredAt(g, fn, p);
    var i :| 0 <= i < |g[p].deps| && g[p].deps[i] == fn;
    assert r[p].deps[i] == nn;
  }

  lemma {:induction false} NeededIsQuiet(g: Graph, fn: Value, nn: Value, lost: Edges, h: Graph, r: Graph)
    requires CanReplace(g, fn, nn) && Mirrored(g) && Closed(g) && Balanced(g, lost) && Quiet(g)
    requires Nodes(g, g[fn].parents) && h == Rewired(g, fn, nn) && Mirrored(h) && IsDead(r, fn)
    requires OnlyDeaths(h, r) && Decided(h, r, [fn]) && Closed(h)
    requires Unneeded(r, nn) ==> Unneeded(g, nn) && g[fn].parents == []
    ensures Quiet(r)
  {
    hide Rewired, Acyclic, Reaches, Balanced, Closed, Mirrored, Decided, HasLiveParent, CanReplace, Unneeded;
    forall p, c | p in r && IsDead(r, p) && c in r[p].deps ensures IsDead(r, c) || HasLiveParent(r, c) {
      if c == nn && !Unneeded(r, nn) {
        UnlessUnneeded(h, r, p, c);
      } else if c != fn {
        hide Quiet;
        ChildQuiet(g, fn, nn, lost, h, r, p, c);
      }
    }
  }

  lemma {:induction false} UnlessUnneeded(h: Graph, r: Graph, p: Value, c: Value)
    requires OnlyDeaths(h, r) && Closed(h) && p in r && c in r[p].deps && !Unneeded(r, c)
    ensures IsDead(r, c) || HasLiveParent(r, c)
  {
  }

  lemma {:induction false} ChildQuiet(g: Graph, fn: Value, nn: Value, lost: Edges, h: Graph, r: Graph, p: Value,
                                      c: Value)
    requires CanReplace(g, fn, nn) && Mirrored(g) && Closed(g) && Balanced(g, lost) && Quiet(g)
    requires Nodes(g, g[fn].parents) && h == Rewired(g, fn, nn) && Mirrored(h) && Closed(h)
    requires OnlyDeaths(h, r) && Decided(h, r, [fn]) && p in r && IsDead(r, p) && c in r[p].deps && c != fn
    requires c == nn ==> Unneeded(r, nn) && Unneeded(g, nn) && g[fn].parents == []
    ensures IsDead(r, c) || HasLiveParent(r, c)
  {
    hide Rewired, Acyclic, Reaches, Balanced, Closed, Mirrored, Decided, HasLiveParent;
    RewiredShape(g, fn, nn);
    ClosedAt(h, p, c);
    if Newly(h, r, p) {
      DecidedAt(h, r, [fn], c, p);
    } else {
      assert IsDead(g, p) && c in g[p].deps;
      if !IsDead(g, c) && c != nn {
        StillQuietAt(g, fn, nn, lost, h, r, c);
      }
    }
  }

  lemma {:induction false} ClosedAt(h: Graph, p: Value, c: Value)
    requires Closed(h) && p in h && c in h[p].deps
    ensures c in h
  {
  }

  lemma {:induction false} DecidedAt(h: Graph, r: Graph, start: seq<Value>, c: Value, p: Value)
    requires Decided(h, r, start) && p in h && Newly(h, r, p) && c in h && c in h[p].deps
    ensures IsDead(r, c) || HasLiveParent(r, c)
  {
    assert Touched(h, r, start, c);
  }

  lemma {:induction false} StillQuietAt(g: Graph, fn: Value, nn: Value, lost: Edges, h: Graph, r: Graph, c: Value)
    requires CanReplace(g, fn, nn) && Mirrored(g) && Closed(g) && Balanced(g, lost)
    requires Nodes(g, g[fn].parents) && h == Rewired(g, fn, nn) && Mirrored(h)
    requires OnlyDeaths(h, r) && Decided(h, r, [fn]) && c in g && c != fn && c != nn && HasLiveParent(g, c)
    ensures IsDead(r, c) || HasLiveParent(r, c)
  {
    hide Rewired, Acyclic, Reaches, Balanced, Closed, Mirrored, Decided;
    RewiredShape(g, fn, nn);
    var q :| q in g[c].parents && !IsDead(g, q);
    MirroredAt(g, c, q);
    ParentsOfRewired(g, fn, nn, lost, c, q);
    MirroredAt(h, c, q);
    if IsDead(r, q) {
      DecidedAt(h, r, [fn], c, q);
    } else {
      assert q in r[c].parents;
    }
  }

  // ----- A node that is left unneeded -----

  /** 2 is dead and so is its child 0, which 1 is to replace. */
  function Abandoned(): Graph {
    map[0 := Node(Dead, [], [2]), 1 := Node(Kind(0), [], []), 2 := Node(Dead, [0], [])]
  }

  lemma {:induction false} AbandonedFacts()
    ensures var g := Abandoned();
            CanReplace(g, 0, 1) && Mirrored(g) && Closed(g) && Balanced(g, multiset{}) && Quiet(g)
  {
    var g := Abandoned();
    var rank: Value -> nat := v => if v == 1 then 0 else if v == 0 then 1 else 2;
    assert Ranked(g, rank);
    hide Abandoned, Ranked;
    RankedIsAcyclic(g, rank);
    NoHigher(g, rank, 1, 0);
    NoHigher(g, rank, 1, 2);
    hide Reaches, Acyclic;
    AbandonedBalanced();
    assert g[0].parents == [2] by {
      AbandonedParents();
    }
  }

  lemma {:induction false} AbandonedParents()
    ensures var g := Abandoned(); 0 in g && 1 in g && g[0].parents == [2] && Unneeded(g, 1) && !HasLiveParent(g, 0)
  {
  }

  lemma {:induction false} AbandonedBalanced()
    ensures var g := Abandoned(); Mirrored(g) && Closed(g) && Balanced(g, multiset{}) && Quiet(g)
  {
    var g := Abandoned();
    assert Mirrored(g) && Closed(g) && Quiet(g);
    hide Mirrored, Closed, Quiet;
    forall p, c | p in g && c in g ensures BalancedAt(g, multiset{}, p, c) {
      AbandonedEdges(p, c);
    }
    hide Abandoned;
  }

  lemma {:induction false} AbandonedEdges(p: Value, c: Value)
    requires p in Abandoned() && c in Abandoned()
    ensures BalancedAt(Abandoned(), multiset{}, p, c)
  {
    assert p == 0 || p == 1 || p == 2;
    assert c == 0 || c == 1 || c == 2;
  }

  lemma {:induction false} NoHigher(g: Graph, rank: Value -> nat, a: Value, b: Value)
    requires Ranked(g, rank) && rank(a) < rank(b)
    ensures !Reaches(g, a, b)
  {
    if Reaches(g, a, b) {
      var path :| Goes(g, path, a, b);
      RankFalls(g, rank, path, |path| - 1);
    }
  }

  /** There the new node stays live below a dead parent. */
  lemma {:induction false} AbandonedStaysUnneeded()
    ensures var g := Abandoned();
            && CanReplace(g, 0, 1) && Mirrored(g) && Closed(g) && Quiet(g)
            && Unneeded(Replace(g, 0, 1), 1) && !Quiet(Replace(g, 0, 1))
  {
    hide Abandoned, Replace, ReplaceSweeps, CanReplace, Mirrored, Closed, Balanced, Quiet, Unneeded, SweptOnto;
    var g := Abandoned();
    AbandonedFacts();
    AbandonedParents();
    QuietSpares(g, ReplaceSweeps(g, 0, 1), 1);
    assert DeadSources(g, multiset{});
    LeftUnneededIff(g, 0, 1, multiset{});
    ReplaceQuietIff(g, 0, 1, multiset{});
  }

  // ----- A node that a dead node takes with it -----

  /** 2 is dead and lists 1, which is live and is to replace it. */
  function DeadAbove(): Graph {
    map[1 := Node(Kind(0), [], [2]), 2 := Node(Dead, [1], [])]
  }

  lemma {:induction false} DeadAboveFacts()
    ensures var g := DeadAbove();
            CanReplace(g, 2, 1) && Mirrored(g) && Closed(g) && Balanced(g, multiset{})
  {
    var g := DeadAbove();
    var rank: Value -> nat := v => v;
    assert Ranked(g, rank);
    hide DeadAbove, Ranked;
    RankedIsAcyclic(g, rank);
    NoHigher(g, rank, 1, 2);
    hide Reaches, Acyclic;
    DeadAboveShape();
    forall p, c | p in g && c in g ensures BalancedAt(g, multiset{}, p, c) {
      DeadAboveEdges(p, c);
    }
  }

  lemma {:induction false} DeadAboveShape()
    ensures var g := DeadAbove();
            && g.Keys == {1, 2} && Mirrored(g) && Closed(g) && g[2].parents == [] && g[2].deps == [1]
            && Unneeded(g, 1) && IsDead(g, 2) && !HasLiveParent(g, 2)
  {
  }

  lemma {:induction false} DeadAboveEdges(p: Value, c: Value)
    requires p in DeadAbove() && c in DeadAbove()
    ensures BalancedAt(DeadAbove(), multiset{}, p, c)
  {
    assert p == 1 || p == 2;
    assert c == 1 || c == 2;
  }

  /** There the new node dies, although nothing needed it before and 2 has no live parent. */
  lemma {:induction false} DeadAboveTakesAlong()
    ensures var g := DeadAbove();
            && CanReplace(g, 2, 1) && Mirrored(g) && Closed(g) && Unneeded(g, 1) && !HasLiveParent(g, 2)
            && SweptOnto(g, ReplaceSweeps(g, 2, 1), 1) && IsDead(Replace(g, 2, 1), 1)
  {
    hide DeadAbove, Replace, ReplaceSweeps, CanReplace, Mirrored, Closed, Balanced, Unneeded, HasLiveParent, SweptOf;
    var g := DeadAbove();
    DeadAboveFacts();
    DeadAboveShape();
    assert DeadSources(g, multiset{});
    ReplaceExact(g, 2, 1, multiset{});
    LeftUnneededIff(g, 2, 1, multiset{});
  }
}
