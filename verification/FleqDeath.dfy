/** Death propagation: setNodesAsDead works in frontiers.  A node of the frontier dies
    when all its parents are dead, and then its children form the next frontier. */
module FleqDeath {
  import opened FleqSpec

  predicate IsDead(g: Graph, v: Value) {
    v in g && g[v].ty == Dead
  }

  predicate HasLiveParent(g: Graph, v: Value) {
    v in g && exists p | p in g[v].parents :: !IsDead(g, p)
  }

  function Kill(g: Graph, v: Value): Graph
    requires v in g
  {
    g[v := g[v].(ty := Dead)]
  }

  ghost predicate Nodes(g: Graph, vs: seq<Value>) {
    forall v | v in vs :: v in g
  }

  /** Every dependency of a node is a node. */
  ghost predicate Closed(g: Graph) {
    forall v | v in g :: Nodes(g, g[v].deps)
  }

  /** One frontier: the graph after it and the frontier it passes on.  Deaths within the
      frontier count for the nodes that come later in it. */
  function Sweep(g: Graph, vs: seq<Value>): (r: (Graph, seq<Value>))
    requires Closed(g) && Nodes(g, vs)
    ensures r.0.Keys == g.Keys && Closed(r.0) && Nodes(r.0, r.1)
    decreases |vs|
  {
    if vs == [] then (g, [])
    else if HasLiveParent(g, vs[0]) then Sweep(g, vs[1..])
    else
      var (h, fwd) := Sweep(Kill(g, vs[0]), vs[1..]);
      (h, g[vs[0]].deps + fwd)
  }

  /** A rank that falls along every edge: the graph has no cycle. */
  ghost predicate Ranked(g: Graph, rank: Value -> nat) {
    forall v, c | v in g && c in g[v].deps :: rank(c) < rank(v)
  }

  ghost predicate Below(vs: seq<Value>, rank: Value -> nat, m: nat) {
    forall v | v in vs :: rank(v) < m
  }

  /** setNodesAsDead: frontier after frontier.  Every frontier lies strictly deeper than
      the one before, so at most `m` of them are not empty. */
  ghost function MarkDead(g: Graph, vs: seq<Value>, rank: Value -> nat, m: nat): (r: Graph)
    requires Closed(g) && Nodes(g, vs) && Ranked(g, rank) && Below(vs, rank, m)
    decreases m
  {
    if vs == [] then g
    else
      SweepKeeps(g, vs);
      SweepDescends(g, vs, rank, m);
      var (h, fwd) := Sweep(g, vs);
      MarkDead(h, fwd, rank, m - 1)
  }

  /** The same edges, and the same types but for deaths. */
  ghost predicate OnlyDeaths(g: Graph, r: Graph) {
    && g.Keys == r.Keys
    && forall x | x in g ::
         r[x].deps == g[x].deps && r[x].parents == g[x].parents && (r[x].ty == g[x].ty || r[x].ty == Dead)
  }

  lemma {:induction false} SweepKeeps(g: Graph, vs: seq<Value>)
    requires Closed(g) && Nodes(g, vs)
    ensures OnlyDeaths(g, Sweep(g, vs).0)
    decreases |vs|
  {
    if vs != [] {
      if HasLiveParent(g, vs[0]) {
        SweepKeeps(g, vs[1..]);
      } else {
        SweepKeeps(Kill(g, vs[0]), vs[1..]);
      }
    }
  }

  lemma {:induction false} SweepDescends(g: Graph, vs: seq<Value>, rank: Value -> nat, m: nat)
    requires Closed(g) && Nodes(g, vs) && Ranked(g, rank) && Below(vs, rank, m) && vs != []
    ensures m > 0 && Ranked(Sweep(g, vs).0, rank) && Below(Sweep(g, vs).1, rank, m - 1)
  {
    assert vs[0] in vs;
    SweepKeeps(g, vs);
    SweepBelow(g, vs, rank, m);
  }

  lemma {:induction false} SweepBelow(g: Graph, vs: seq<Value>, rank: Value -> nat, m: nat)
    requires Closed(g) && Nodes(g, vs) && Ranked(g, rank) && Below(vs, rank, m) && m > 0
    ensures Below(Sweep(g, vs).1, rank, m - 1)
    decreases |vs|
  {
    if vs != [] {
      var v, tail := vs[0], vs[1..];
      assert v in vs && forall x | x in tail :: x in vs;
      if HasLiveParent(g, v) {
        SweepBelow(g, tail, rank, m);
      } else {
        SweepBelow(Kill(g, v), tail, rank, m);
        forall x | x in g[v].deps ensures rank(x) < m - 1 {
          assert rank(x) < rank(v) < m;
        }
      }
    }
  }

  lemma {:induction false} MarkDeadKeeps(g: Graph, vs: seq<Value>, rank: Value -> nat, m: nat)
    requires Closed(g) && Nodes(g, vs) && Ranked(g, rank) && Below(vs, rank, m)
    ensures OnlyDeaths(g, MarkDead(g, vs, rank, m))
    decreases m
  {
    if vs != [] {
      hide OnlyDeaths;
      SweepKeeps(g, vs);
      SweepDescends(g, vs, rank, m);
      var (h, fwd) := Sweep(g, vs);
      MarkDeadKeeps(h, fwd, rank, m - 1);
      OnlyDeathsTrans(g, h, MarkDead(h, fwd, rank, m - 1));
    } else {
      NoDeaths(g);
    }
  }

  lemma {:induction false} NoDeaths(g: Graph)
    ensures OnlyDeaths(g, g)
  {
  }

  lemma {:induction false} OnlyDeathsTrans(g: Graph, h: Graph, r: Graph)
    requires OnlyDeaths(g, h) && OnlyDeaths(h, r)
    ensures OnlyDeaths(g, r)
  {
  }

  // ----- Who dies -----

  /** Every parent entry has its dependency entry. */
  ghost predicate Mirrored(g: Graph) {
    forall c, p | c in g && p in g[c].parents :: p in g && c in g[p].deps
  }

  ghost predicate AllIn(g: Graph, ps: seq<Value>, s: set<Value>) {
    forall p | p in ps :: IsDead(g, p) || p in s
  }

  /** Among the children of `s`, or in the first frontier. */
  ghost predicate Reached(g: Graph, start: seq<Value>, s: set<Value>, x: Value) {
    x in start || exists p :: p in s && p in g && x in g[p].deps
  }

  /** What the frontier `start` calls for, said without any order: a node is in the set
      exactly when it is reached and all its parents are dead or in it; nodes of `out` are
      left aside. */
  ghost predicate CalledFor(g: Graph, start: seq<Value>, out: set<Value>, s: set<Value>) {
    forall x :: x in s <==> x in g && x !in out && Reached(g, start, s, x) && AllIn(g, g[x].parents, s)
  }

  /** The nodes that are marked, those that were dead before included. */
  ghost predicate SweptOf(g: Graph, start: seq<Value>, swept: set<Value>) {
    CalledFor(g, start, {}, swept)
  }

  function DeadNodes(g: Graph): set<Value> {
    set x | x in g && IsDead(g, x)
  }

  /** The nodes that die, if no death has to come down by a node that was dead before. */
  ghost predicate DeathsOf(g: Graph, start: seq<Value>, deaths: set<Value>) {
    CalledFor(g, start, DeadNodes(g), deaths)
  }

  function Deaths(g: Graph, r: Graph): set<Value> {
    set x | x in r && IsDead(r, x) && !IsDead(g, x)
  }

  /** In a graph without cycles such a description has one solution. */
  lemma {:induction false} DeathsAreUnique(g: Graph, start: seq<Value>, out: set<Value>, rank: Value -> nat,
                                           a: set<Value>, b: set<Value>)
    requires Mirrored(g) && Ranked(g, rank) && CalledFor(g, start, out, a) && CalledFor(g, start, out, b)
    ensures a == b
  {
    var m := Bound(a + b, rank);
    forall x | x in a ensures x in b {
      OneSided(g, start, out, rank, a, b, m, x);
    }
    forall x | x in b ensures x in a {
      OneSided(g, start, out, rank, b, a, m, x);
    }
  }

  lemma {:induction false} Bound(xs: set<Value>, rank: Value -> nat) returns (m: nat)
    ensures forall x | x in xs :: rank(x) <= m
    decreases xs
  {
    if xs == {} {
      m := 0;
    } else {
      var x :| x in xs;
      m := Bound(xs - {x}, rank);
      if m < rank(x) {
        m := rank(x);
      }
    }
  }

  lemma {:induction false} OneSided(g: Graph, start: seq<Value>, out: set<Value>, rank: Value -> nat, a: set<Value>,
                                    b: set<Value>, m: nat, x: Value)
    requires Mirrored(g) && Ranked(g, rank) && CalledFor(g, start, out, a) && CalledFor(g, start, out, b)
    requires x in a && forall y | y in a :: rank(y) <= m
    ensures x in b
    decreases m - rank(x)
  {
    forall p | p in g[x].parents ensures IsDead(g, p) || p in b {
      if p in a {
        assert rank(x) < rank(p);
        OneSided(g, start, out, rank, a, b, m, p);
      }
    }
    if x !in start {
      var p :| p in a && p in g && x in g[p].deps;
      assert rank(x) < rank(p);
      OneSided(g, start, out, rank, a, b, m, p);
    }
    assert Reached(g, start, b, x) && AllIn(g, g[x].parents, b);
  }

  // ----- What the frontiers mark -----

  /** What one frontier marks. */
  ghost function SweptBy(g: Graph, vs: seq<Value>): set<Value>
    requires Closed(g) && Nodes(g, vs)
    decreases |vs|
  {
    if vs == [] then {}
    else if HasLiveParent(g, vs[0]) then SweptBy(g, vs[1..])
    else {vs[0]} + SweptBy(Kill(g, vs[0]), vs[1..])
  }

  /** What all of them mark. */
  ghost function Swept(g: Graph, vs: seq<Value>, rank: Value -> nat, m: nat): set<Value>
    requires Closed(g) && Nodes(g, vs) && Ranked(g, rank) && Below(vs, rank, m)
    decreases m
  {
    if vs == [] then {}
    else
      SweepKeeps(g, vs);
      SweepDescends(g, vs, rank, m);
      var (h, fwd) := Sweep(g, vs);
      SweptBy(g, vs) + Swept(h, fwd, rank, m - 1)
  }

  ghost predicate DeadBy(g: Graph, r: Graph, s: set<Value>) {
    forall x :: IsDead(r, x) <==> IsDead(g, x) || (x in g && x in s)
  }

  /** Where the marking stands: what is marked was reached, and has no live parent. */
  ghost predicate Marked(g0: Graph, g: Graph, start: seq<Value>, s: set<Value>) {
    && OnlyDeaths(g0, g) && DeadBy(g0, g, s)
    && forall x | x in s :: x in g0 && Reached(g0, start, s, x) && !HasLiveParent(g, x)
  }

  ghost predicate Handed(g: Graph, start: seq<Value>, s: set<Value>, vs: seq<Value>) {
    forall v | v in vs :: v in g && Reached(g, start, s, v)
  }

  /** What is reached is marked, has a live parent, or is still on the worklist. */
  ghost predicate Pending(g0: Graph, g: Graph, start: seq<Value>, s: set<Value>, work: set<Value>) {
    forall v | v in g0 && Reached(g0, start, s, v) :: v in s || HasLiveParent(g, v) || v in work
  }

  function SetOf(vs: seq<Value>): set<Value> {
    set v | v in vs
  }

  lemma {:induction false} KillKeeps(g0: Graph, g: Graph, v: Value)
    requires OnlyDeaths(g0, g) && v in g
    ensures OnlyDeaths(g0, Kill(g, v)) && (Closed(g) ==> Closed(Kill(g, v)))
    ensures forall x :: IsDead(Kill(g, v), x) == (x == v || IsDead(g, x))
    ensures forall x | HasLiveParent(Kill(g, v), x) :: HasLiveParent(g, x)
    ensures forall x | HasLiveParent(g, x) :: HasLiveParent(Kill(g, v), x) || v in g[x].parents
  {
    var r := Kill(g, v);
    forall x | HasLiveParent(g, x) ensures HasLiveParent(r, x) || v in g[x].parents {
      var p :| p in g[x].parents && !IsDead(g, p);
      assert p != v ==> !IsDead(r, p);
    }
    forall x | HasLiveParent(r, x) ensures HasLiveParent(g, x) {
      var p :| p in r[x].parents && !IsDead(r, p);
      assert p in g[x].parents && !IsDead(g, p);
    }
  }

  lemma {:induction false} ReachedGrows(g: Graph, start: seq<Value>, s: set<Value>, t: set<Value>)
    requires s <= t
    ensures forall x | Reached(g, start, s, x) :: Reached(g, start, t, x)
  {
  }

  lemma {:induction false} KillMarked(g0: Graph, g: Graph, start: seq<Value>, s: set<Value>, v: Value)
    requires Marked(g0, g, start, s) && v in g && !HasLiveParent(g, v) && Reached(g0, start, s, v)
    ensures Marked(g0, Kill(g, v), start, s + {v})
  {
    hide Kill, HasLiveParent, Reached, IsDead;
    KillKeeps(g0, g, v);
    ReachedGrows(g0, start, s, s + {v});
  }

  /** A mark puts the children of the marked node on the worklist, which is where a node goes
      that has just lost its last live parent. */
  lemma {:induction false} KillPending(g0: Graph, g: Graph, start: seq<Value>, s: set<Value>, v: Value,
                                       work: set<Value>)
    requires OnlyDeaths(g0, g) && Mirrored(g0) && v in g && !HasLiveParent(g, v)
    requires Pending(g0, g, start, s, work + {v})
    ensures Pending(g0, Kill(g, v), start, s + {v}, work + SetOf(g[v].deps))
  {
    var r := Kill(g, v);
    hide Kill, HasLiveParent, IsDead;
    KillKeeps(g0, g, v);
    forall x | x in g0 && Reached(g0, start, s + {v}, x)
      ensures x in s + {v} || HasLiveParent(r, x) || x in work + SetOf(g[v].deps)
    {
      if !(x in g[v].deps) {
        assert Reached(g0, start, s, x);
        assert v !in g[x].parents;
      }
    }
  }

  lemma {:induction false} KillNodes(g: Graph, v: Value, vs: seq<Value>)
    requires v in g && Nodes(g, vs)
    ensures Nodes(Kill(g, v), vs)
  {
  }

  lemma {:induction false} StillPending(g0: Graph, g: Graph, start: seq<Value>, s: set<Value>, v: Value,
                                        work: set<Value>)
    requires Pending(g0, g, start, s, work + {v}) && HasLiveParent(g, v)
    ensures Pending(g0, g, start, s, work)
  {
  }

  lemma {:induction false} HandedTail(g: Graph, start: seq<Value>, s: set<Value>, t: set<Value>, vs: seq<Value>)
    requires vs != [] && Handed(g, start, s, vs) && s <= t
    ensures Handed(g, start, t, vs[1..]) && Reached(g, start, s, vs[0])
  {
    ReachedGrows(g, start, s, t);
    hide Reached;
  }

  lemma {:induction false} ChildrenHanded(g: Graph, start: seq<Value>, s: set<Value>, v: Value, deps: seq<Value>,
                                          fwd: seq<Value>)
    requires Closed(g) && v in g && v in s && deps == g[v].deps && Handed(g, start, s, fwd)
    ensures Handed(g, start, s, deps + fwd)
  {
    assert Nodes(g, g[v].deps);
  }

  /** One frontier. */
  lemma {:induction false} SweepMarks(g0: Graph, g: Graph, start: seq<Value>, s: set<Value>, vs: seq<Value>,
                                      work: set<Value>)
    requires Marked(g0, g, start, s) && Mirrored(g0) && Closed(g0) && Closed(g) && Nodes(g, vs)
    requires Handed(g0, start, s, vs) && Pending(g0, g, start, s, work + SetOf(vs))
    ensures var (h, fwd), t := Sweep(g, vs), s + SweptBy(g, vs);
            Marked(g0, h, start, t) && Handed(g0, start, t, fwd) && Pending(g0, h, start, t, work + SetOf(fwd))
    decreases |vs|
  {
    hide Pending, Marked, Handed, Kill, Mirrored, HasLiveParent, Closed;
    if vs == [] {
      NothingHanded(g0, start, s);
      assert s + SweptBy(g, vs) == s && SetOf(vs) == {};
    } else {
      var v, tail := vs[0], vs[1..];
      assert vs == [v] + tail;
      assert work + SetOf(vs) == (work + SetOf(tail)) + {v};
      if HasLiveParent(g, v) {
        HandedTail(g0, start, s, s, vs);
        StillPending(g0, g, start, s, v, work + SetOf(tail));
        SweepMarks(g0, g, start, s, tail, work);
      } else {
        var h := Kill(g, v);
        MarkedMeans(g0, g, start, s);
        KillKeeps(g0, g, v);
        HandedTail(g0, start, s, s + {v}, vs);
        KillMarked(g0, g, start, s, v);
        KillPending(g0, g, start, s, v, work + SetOf(tail));
        assert (work + SetOf(tail)) + SetOf(g[v].deps) == (work + SetOf(g[v].deps)) + SetOf(tail);
        KillNodes(g, v, tail);
        SweepMarks(g0, h, start, s + {v}, tail, work + SetOf(g[v].deps));
        var (k, fwd) := Sweep(h, tail);
        assert s + SweptBy(g, vs) == (s + {v}) + SweptBy(h, tail);
        ChildrenHanded(g0, start, s + SweptBy(g, vs), v, g[v].deps, fwd);
        assert work + SetOf(g[v].deps + fwd) == (work + SetOf(g[v].deps)) + SetOf(fwd);
        assert Sweep(g, vs) == (k, g[v].deps + fwd);
      }
    }
  }

  lemma {:induction false} NothingHanded(g: Graph, start: seq<Value>, s: set<Value>)
    ensures Handed(g, start, s, [])
  {
  }

  lemma {:induction false} MarkedMeans(g0: Graph, g: Graph, start: seq<Value>, s: set<Value>)
    requires Marked(g0, g, start, s)
    ensures OnlyDeaths(g0, g) && forall x | x in g :: x in g0 && g[x].deps == g0[x].deps
  {
  }

  /** Frontier after frontier. */
  lemma {:induction false} MarkDeadMarks(g0: Graph, g: Graph, start: seq<Value>, s: set<Value>, vs: seq<Value>,
                                         rank: Value -> nat, m: nat)
    requires Closed(g) && Nodes(g, vs) && Ranked(g, rank) && Below(vs, rank, m)
    requires Marked(g0, g, start, s) && Mirrored(g0) && Closed(g0)
    requires Handed(g0, start, s, vs) && Pending(g0, g, start, s, SetOf(vs))
    ensures var r, t := MarkDead(g, vs, rank, m), s + Swept(g, vs, rank, m);
            Marked(g0, r, start, t) && Pending(g0, r, start, t, {})
    decreases m
  {
    hide Marked, Mirrored, Handed, Pending, Ranked, Below, Closed, Nodes;
    assert {} + SetOf(vs) == SetOf(vs);
    if vs == [] {
      assert SetOf(vs) == {} && s + {} == s;
    } else {
      SweepDescends(g, vs, rank, m);
      SweepKeeps(g, vs);
      SweepMarks(g0, g, start, s, vs, {});
      var (h, fwd) := Sweep(g, vs);
      assert {} + SetOf(fwd) == SetOf(fwd);
      MarkDeadMarks(g0, h, start, s + SweptBy(g, vs), fwd, rank, m - 1);
      assert s + Swept(g, vs, rank, m) == (s + SweptBy(g, vs)) + Swept(h, fwd, rank, m - 1);
    }
  }

  /** setNodesAsDead is exact, on any graph without cycles: what the frontiers mark is what
      the first one calls for, even where the last parent dies in a later frontier or a death
      comes down by nodes that were dead before; and those nodes are dead afterwards. */
  lemma {:induction false} MarkDeadExact(g: Graph, vs: seq<Value>, rank: Value -> nat, m: nat)
    requires Closed(g) && Nodes(g, vs) && Ranked(g, rank) && Below(vs, rank, m) && Mirrored(g)
    ensures var r, s := MarkDead(g, vs, rank, m), Swept(g, vs, rank, m);
            OnlyDeaths(g, r) && SweptOf(g, vs, s) && DeadBy(g, r, s)
  {
    hide MarkDead, Swept, Mirrored, Marked, Pending, Handed, SweptOf;
    Start(g, vs);
    MarkDeadMarks(g, g, vs, {}, vs, rank, m);
    var s := Swept(g, vs, rank, m);
    assert {} + s == s;
    MarkedIsSwept(g, MarkDead(g, vs, rank, m), vs, s);
  }

  lemma {:induction false} Start(g: Graph, vs: seq<Value>)
    requires Nodes(g, vs)
    ensures Marked(g, g, vs, {}) && Handed(g, vs, {}, vs) && Pending(g, g, vs, {}, SetOf(vs))
  {
  }

  lemma {:induction false} MarkedIsSwept(g: Graph, r: Graph, start: seq<Value>, s: set<Value>)
    requires Marked(g, r, start, s) && Pending(g, r, start, s, {})
    ensures OnlyDeaths(g, r) && SweptOf(g, start, s) && DeadBy(g, r, s)
  {
    hide Reached;
    forall x | x in g ensures !HasLiveParent(r, x) <==> AllIn(g, g[x].parents, s) {
      AllDeadIff(g, r, s, x);
    }
    hide HasLiveParent, AllIn;
  }

  lemma {:induction false} AllDeadIff(g: Graph, r: Graph, s: set<Value>, x: Value)
    requires OnlyDeaths(g, r) && DeadBy(g, r, s) && x in g && forall y | y in s :: y in g
    ensures !HasLiveParent(r, x) <==> AllIn(g, g[x].parents, s)
  {
    hide IsDead;
  }

  // ----- What follows for single nodes -----

  ghost predicate Newly(g: Graph, r: Graph, x: Value) {
    IsDead(r, x) && !IsDead(g, x)
  }

  /** In the first frontier, or a child of a node that died. */
  ghost predicate Touched(g: Graph, r: Graph, start: seq<Value>, v: Value) {
    v in g && (v in start || exists p :: p in g && Newly(g, r, p) && v in g[p].deps)
  }

  /** Touched nodes are dead or have a live parent. */
  ghost predicate Decided(g: Graph, r: Graph, start: seq<Value>) {
    forall v | Touched(g, r, start, v) :: IsDead(r, v) || HasLiveParent(r, v)
  }

  /** No node has died while it had a live parent. */
  ghost predicate Justified(g: Graph, r: Graph) {
    forall x | Newly(g, r, x) :: !HasLiveParent(r, x)
  }

  /** No edge leads out of the zone. */
  ghost predicate ClosedZone(g: Graph, zone: set<Value>) {
    forall p, c | p in zone && p in g && c in g[p].deps :: c in zone
  }

  ghost predicate Within(vs: seq<Value>, zone: set<Value>) {
    forall v | v in vs :: v in zone
  }

  /** Nothing is marked outside a zone that holds the first frontier and that no edge leaves. */
  lemma {:induction false} SweptStaysWithin(g: Graph, start: seq<Value>, rank: Value -> nat, s: set<Value>,
                                            zone: set<Value>)
    requires Ranked(g, rank) && SweptOf(g, start, s) && ClosedZone(g, zone) && Within(start, zone)
    ensures s <= zone
  {
    var m := Bound(s, rank);
    forall x | x in s ensures x in zone {
      StaysWithin(g, start, rank, s, zone, m, x);
    }
  }

  lemma {:induction false} StaysWithin(g: Graph, start: seq<Value>, rank: Value -> nat, s: set<Value>,
                                       zone: set<Value>, m: nat, x: Value)
    requires Ranked(g, rank) && SweptOf(g, start, s) && ClosedZone(g, zone) && Within(start, zone)
    requires x in s && forall y | y in s :: rank(y) <= m
    ensures x in zone
    decreases m - rank(x)
  {
    assert Reached(g, start, s, x);
    if x !in start {
      var p :| p in s && p in g && x in g[p].deps;
      assert rank(x) < rank(p);
      StaysWithin(g, start, rank, s, zone, m, p);
    }
  }

  lemma {:induction false} SweptDecides(g: Graph, r: Graph, start: seq<Value>, s: set<Value>)
    requires OnlyDeaths(g, r) && SweptOf(g, start, s) && DeadBy(g, r, s)
    ensures Justified(g, r) && Decided(g, r, start) && Deaths(g, r) <= s
  {
    forall v | Touched(g, r, start, v) ensures IsDead(r, v) || HasLiveParent(r, v) {
      assert Reached(g, start, s, v);
      AllDeadIff(g, r, s, v);
    }
    forall x | Newly(g, r, x) ensures !HasLiveParent(r, x) {
      AllDeadIff(g, r, s, x);
    }
  }

  // ----- Quiet graphs -----

  /** Nothing is left to do: a child of a dead node is dead or has a live parent. */
  ghost predicate Quiet(g: Graph) {
    forall p, c | p in g && IsDead(g, p) && c in g[p].deps :: IsDead(g, c) || HasLiveParent(g, c)
  }

  /** The same, but for nodes that the next call starts from. */
  ghost predicate QuietBut(g: Graph, start: seq<Value>) {
    forall p, c | p in g && IsDead(g, p) && c in g[p].deps :: IsDead(g, c) || HasLiveParent(g, c) || c in start
  }

  /** In a graph that is quiet but for the start, the nodes that die are those that the start
      calls for without the nodes that were dead before, and the graph is quiet afterwards. */
  lemma {:induction false} MarkDeadMeaning(g: Graph, vs: seq<Value>, rank: Value -> nat, m: nat)
    requires Closed(g) && Nodes(g, vs) && Ranked(g, rank) && Below(vs, rank, m) && Mirrored(g)
    ensures var r, s := MarkDead(g, vs, rank, m), Swept(g, vs, rank, m);
            && OnlyDeaths(g, r) && SweptOf(g, vs, s) && DeadBy(g, r, s)
            && (QuietBut(g, vs) ==> DeathsOf(g, vs, Deaths(g, r)) && Quiet(r))
  {
    hide MarkDead, Swept, OnlyDeaths, Mirrored, Justified, Decided, Quiet, QuietBut, DeathsOf, SweptOf, DeadBy;
    var r, s := MarkDead(g, vs, rank, m), Swept(g, vs, rank, m);
    MarkDeadExact(g, vs, rank, m);
    SweptDecides(g, r, vs, s);
    if QuietBut(g, vs) {
      forall x | Newly(g, r, x) ensures Reached(g, vs, Deaths(g, r), x) {
        NewParent(g, r, vs, s, x);
      }
      ExactMeansDeathsOf(g, r, vs);
      ExactMeansQuiet(g, r, vs);
    }
  }

  /** In a quiet graph a death below the first frontier has a parent that just died. */
  lemma {:induction false} NewParent(g: Graph, r: Graph, start: seq<Value>, s: set<Value>, x: Value)
    requires OnlyDeaths(g, r) && Mirrored(g) && QuietBut(g, start) && Justified(g, r)
    requires SweptOf(g, start, s) && DeadBy(g, r, s) && Newly(g, r, x)
    ensures Reached(g, start, Deaths(g, r), x)
  {
    assert Reached(g, start, s, x);
    if x !in start {
      var p :| p in s && p in g && x in g[p].deps;
      if IsDead(g, p) {
        assert HasLiveParent(g, x);
        LiveParentDied(g, r, start, x);
      } else {
        assert p in Deaths(g, r);
      }
    }
  }

  /** A node that dies and had a live parent is a child of a node that dies. */
  lemma {:induction false} LiveParentDied(g: Graph, r: Graph, start: seq<Value>, x: Value)
    requires OnlyDeaths(g, r) && Mirrored(g) && Justified(g, r) && Newly(g, r, x) && HasLiveParent(g, x)
    ensures Reached(g, start, Deaths(g, r), x)
  {
    var q :| q in g[x].parents && !IsDead(g, q);
    assert IsDead(r, q) by {
      assert !HasLiveParent(r, x);
    }
    assert q in Deaths(g, r) && x in g[q].deps;
  }

  lemma {:induction false} ExactMeansDeathsOf(g: Graph, r: Graph, start: seq<Value>)
    requires OnlyDeaths(g, r) && Mirrored(g) && Justified(g, r) && Decided(g, r, start)
    requires forall x | Newly(g, r, x) :: Reached(g, start, Deaths(g, r), x)
    ensures DeathsOf(g, start, Deaths(g, r))
  {
    hide Decided, Justified, Mirrored, OnlyDeaths, Reached, AllIn;
    var deaths := Deaths(g, r);
    forall x
      ensures x in deaths <==>
              x in g && x !in DeadNodes(g) && Reached(g, start, deaths, x) && AllIn(g, g[x].parents, deaths)
    {
      if x in deaths {
        assert Newly(g, r, x);
        NoneLive(g, r, x);
      }
      if x in g && !IsDead(g, x) && Reached(g, start, deaths, x) && AllIn(g, g[x].parents, deaths) {
        MustDie(g, r, start, x);
      }
    }
  }

  lemma {:induction false} MustDie(g: Graph, r: Graph, start: seq<Value>, x: Value)
    requires OnlyDeaths(g, r) && Decided(g, r, start)
    requires x in g && !IsDead(g, x) && Reached(g, start, Deaths(g, r), x) && AllIn(g, g[x].parents, Deaths(g, r))
    ensures x in Deaths(g, r)
  {
    assert Touched(g, r, start, x);
    assert forall p | p in r[x].parents :: IsDead(r, p);
  }

  lemma {:induction false} NoneLive(g: Graph, r: Graph, x: Value)
    requires OnlyDeaths(g, r) && Mirrored(g) && Justified(g, r) && Newly(g, r, x)
    ensures x in g && AllIn(g, g[x].parents, Deaths(g, r))
  {
    forall p | p in g[x].parents ensures IsDead(g, p) || p in Deaths(g, r) {
      assert !HasLiveParent(r, x) && p in r[x].parents;
      assert IsDead(r, p);
    }
  }

  lemma {:induction false} ExactMeansQuiet(g: Graph, r: Graph, start: seq<Value>)
    requires OnlyDeaths(g, r) && Mirrored(g) && QuietBut(g, start) && Closed(g) && Decided(g, r, start)
    ensures Quiet(r)
  {
    forall p, c | p in r && IsDead(r, p) && c in r[p].deps ensures IsDead(r, c) || HasLiveParent(r, c) {
      assert c in g;
      if Newly(g, r, p) {
        assert Touched(g, r, start, c);
      } else if c in start {
        assert Touched(g, r, start, c);
      } else if !IsDead(g, c) {
        assert HasLiveParent(g, c);
        var q :| q in g[c].parents && !IsDead(g, q);
        if IsDead(r, q) {
          assert Newly(g, r, q) && Touched(g, r, start, c);
        } else {
          assert q in r[c].parents;
        }
      }
    }
  }
}
