/** Paths in the FLEQ graph, and why a graph without cycles has a rank that falls along
    every edge: the number of nodes that can be reached. */
module FleqAcyclic {
  import opened Sums
  import opened FleqSpec
  import opened FleqDeath

  ghost predicate Path(g: Graph, path: seq<Value>) {
    path != [] && forall i | 0 <= i < |path| - 1 :: Edge(g, path[i], path[i + 1])
  }

  ghost predicate Edge(g: Graph, v: Value, c: Value) {
    v in g && c in g[v].deps
  }

  ghost predicate Goes(g: Graph, path: seq<Value>, a: Value, b: Value) {
    Path(g, path) && path[0] == a && path[|path| - 1] == b
  }

  ghost predicate Reaches(g: Graph, a: Value, b: Value) {
    exists path :: Goes(g, path, a, b)
  }

  ghost predicate Acyclic(g: Graph) {
    forall v, c | Edge(g, v, c) :: !Reaches(g, c, v)
  }

  lemma {:induction false} ReachesSelf(g: Graph, a: Value)
    ensures Reaches(g, a, a)
  {
    assert Goes(g, [a], a, a);
  }

  lemma {:induction false} ReachesStep(g: Graph, a: Value, b: Value, c: Value)
    requires Edge(g, a, b) && Reaches(g, b, c)
    ensures Reaches(g, a, c)
  {
    var path :| Goes(g, path, b, c);
    var longer := [a] + path;
    forall i | 0 <= i < |longer| - 1 ensures Edge(g, longer[i], longer[i + 1]) {
      if i > 0 {
        assert Edge(g, path[i - 1], path[i - 1 + 1]);
      }
    }
    assert Goes(g, longer, a, c);
  }

  lemma {:induction false} ReachesOn(g: Graph, a: Value, b: Value, c: Value)
    requires Reaches(g, a, b) && Edge(g, b, c)
    ensures Reaches(g, a, c)
  {
    var path :| Goes(g, path, a, b);
    var longer := path + [c];
    forall i | 0 <= i < |longer| - 1 ensures Edge(g, longer[i], longer[i + 1]) {
      if i < |path| - 1 {
        assert Edge(g, path[i], path[i + 1]);
      }
    }
    assert Goes(g, longer, a, c);
  }

  /** How many nodes `v` reaches. */
  ghost function Depth(g: Graph, v: Value): nat {
    |Below0(g, v)|
  }

  ghost function Below0(g: Graph, v: Value): set<Value> {
    set x | x in g && Reaches(g, v, x)
  }

  lemma {:induction false} SmallerSet(a: set<Value>, b: set<Value>, x: Value)
    requires a <= b && x in b && x !in a
    ensures |a| < |b|
  {
    assert a <= b - {x};
    SubsetSize(a, b - {x});
  }

  lemma {:induction false} DepthFalls(g: Graph, v: Value, c: Value)
    requires Acyclic(g) && Edge(g, v, c)
    ensures Depth(g, c) < Depth(g, v)
  {
    forall x | x in Below0(g, c) ensures x in Below0(g, v) {
      ReachesStep(g, v, c, x);
    }
    ReachesSelf(g, v);
    SmallerSet(Below0(g, c), Below0(g, v), v);
  }

  /** A graph has no cycle exactly when some rank falls along every edge. */
  lemma {:induction false} AcyclicIffRanked(g: Graph)
    ensures Acyclic(g) <==> exists rank: Value -> nat :: Ranked(g, rank)
  {
    if Acyclic(g) {
      AcyclicIsRanked(g);
    }
    if rank: Value -> nat :| Ranked(g, rank) {
      RankedIsAcyclic(g, rank);
    }
  }

  ghost function DepthIn(g: Graph): Value -> nat {
    v => Depth(g, v)
  }

  lemma {:induction false} AcyclicIsRanked(g: Graph)
    requires Acyclic(g)
    ensures Ranked(g, DepthIn(g))
  {
    forall v, c | v in g && c in g[v].deps ensures DepthIn(g)(c) < DepthIn(g)(v) {
      DepthFalls(g, v, c);
    }
  }

  lemma {:induction false} RankedIsAcyclic(g: Graph, rank: Value -> nat)
    requires Ranked(g, rank)
    ensures Acyclic(g)
  {
    forall v, c | Edge(g, v, c) ensures !Reaches(g, c, v) {
      if Reaches(g, c, v) {
        var path :| Goes(g, path, c, v);
        RankFalls(g, rank, path, |path| - 1);
      }
    }
  }

  lemma {:induction false} RankFalls(g: Graph, rank: Value -> nat, path: seq<Value>, i: nat)
    requires Ranked(g, rank) && Path(g, path) && i < |path|
    ensures rank(path[i]) <= rank(path[0])
    decreases i
  {
    if i > 0 {
      RankFalls(g, rank, path, i - 1);
      assert Edge(g, path[i - 1], path[i - 1 + 1]);
    }
  }
}
