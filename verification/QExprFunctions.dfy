/** Whole function bodies: return values of functions that return a QExpr are rewritten
    too, and their return statements are counted. */
module QExprFunctions {
  import opened QExprSyntax
  import opened QExprMeaning
  import opened QExprRewriting
  import opened QExprOperators
  import opened QExprQueries
  import opened QExprTraversal
  import opened QExprCompleteness

  /** Statements other than returns and expressions matter for what is inside them. */
  datatype Stmt = Return(value: Expr) | Expression(e: Expr) | Block(stmts: seq<Stmt>)

  function ReturnValue(ds: Declarations, quantum: bool, e: Expr): (Expr, bool)
  {
    if quantum then
      var o := Analyze(ds, e, false);
      (Kept(o), o.err)
    else (e, false)
  }

  function TraverseStmt(ds: Declarations, quantum: bool, s: Stmt): (Stmt, bool)
    decreases s
  {
    match s
    case Return(e) =>
      var v := ReturnValue(ds, quantum, e);
      var t := Traverse(ds, v.0);
      (Return(t.0), v.1 || t.1)
    case Expression(e) =>
      var t := Traverse(ds, e);
      (Expression(t.0), t.1)
    case Block(stmts) =>
      var t := TraverseStmts(ds, quantum, stmts);
      (Block(t.0), t.1)
  }

  function TraverseStmts(ds: Declarations, quantum: bool, stmts: seq<Stmt>): (r: (seq<Stmt>, bool))
    ensures |r.0| == |stmts|
    decreases stmts
  {
    if stmts == [] then ([], false)
    else
      var first := TraverseStmt(ds, quantum, stmts[0]);
      var rest := TraverseStmts(ds, quantum, stmts[1..]);
      ([first.0] + rest.0, first.1 || rest.1)
  }

  /** The return statements of a body. */
  function Returns(s: Stmt): nat
    decreases s
  {
    match s
    case Return(_) => 1
    case Expression(_) => 0
    case Block(stmts) => ReturnsIn(stmts)
  }

  function ReturnsIn(stmts: seq<Stmt>): nat
    decreases stmts
  {
    if stmts == [] then 0 else Returns(stmts[0]) + ReturnsIn(stmts[1..])
  }

  /** Some QExpr argument of a call, or QExpr that is returned, looks so. */
  predicate FoundInStmt(ds: Declarations, q: Query, quantum: bool, s: Stmt)
    decreases s
  {
    match s
    case Return(e) => (quantum && Looks(ds, q, e)) || FoundIn(ds, q, e)
    case Expression(e) => FoundIn(ds, q, e)
    case Block(stmts) => FoundInStmts(ds, q, quantum, stmts)
  }

  predicate FoundInStmts(ds: Declarations, q: Query, quantum: bool, stmts: seq<Stmt>)
    decreases stmts
  {
    stmts != [] && (FoundInStmt(ds, q, quantum, stmts[0]) || FoundInStmts(ds, q, quantum, stmts[1..]))
  }

  // ----- Where the walk over a body dereferences null -----

  predicate StumblesInBody(ds: Declarations, quantum: bool, s: Stmt)
    decreases s
  {
    match s
    case Return(e) => (quantum && Stumbles(ds, e, false)) || StumblesIn(ds, ReturnValue(ds, quantum, e).0)
    case Expression(e) => StumblesIn(ds, e)
    case Block(stmts) => StumblesInBlock(ds, quantum, stmts)
  }

  predicate StumblesInBlock(ds: Declarations, quantum: bool, stmts: seq<Stmt>)
    decreases stmts
  {
    stmts != [] && (StumblesInBody(ds, quantum, stmts[0]) || StumblesInBlock(ds, quantum, stmts[1..]))
  }

  /** It does not where cIf is declared. */
  lemma {:induction false} BodyNeverStumbles(ds: Declarations, quantum: bool, s: Stmt)
    requires CIF in ds
    ensures !StumblesInBody(ds, quantum, s)
    decreases s
  {
    hide Stumbles, StumblesIn, ReturnValue;
    match s
    case Return(e) =>
      NeverStumbles(ds, e, false);
      WalkNeverStumbles(ds, ReturnValue(ds, quantum, e).0);
    case Expression(e) => WalkNeverStumbles(ds, e);
    case Block(stmts) => BlockNeverStumbles(ds, quantum, stmts);
  }

  lemma {:induction false} BlockNeverStumbles(ds: Declarations, quantum: bool, stmts: seq<Stmt>)
    requires CIF in ds
    ensures !StumblesInBlock(ds, quantum, stmts)
    decreases stmts
  {
    hide StumblesInBody;
    if stmts != [] {
      BodyNeverStumbles(ds, quantum, stmts[0]);
      BlockNeverStumbles(ds, quantum, stmts[1..]);
    }
  }

  // ----- Meaning -----

  predicate SameStmt(ds: Declarations, env: Env, quantum: bool, s: Stmt, t: Stmt)
    decreases s
  {
    match s
    case Return(e) =>
      t.Return? && TraceOf(ds, env, t.value) == TraceOf(ds, env, e) &&
      (quantum || NumberOf(ds, env, t.value) == NumberOf(ds, env, e))
    case Expression(e) =>
      t.Expression? && TraceOf(ds, env, t.e) == TraceOf(ds, env, e) && NumberOf(ds, env, t.e) == NumberOf(ds, env, e)
    case Block(stmts) =>
      t.Block? && |t.stmts| == |stmts| && forall i | 0 <= i < |stmts| ::
        SameStmt(ds, env, quantum, stmts[i], t.stmts[i])
  }

  lemma {:induction false} BodyKeepsMeaning(ds: Declarations, env: Env, quantum: bool, s: Stmt)
    requires Shaped(ds) && !FoundInStmt(ds, Overflowing, quantum, s)
    ensures SameStmt(ds, env, quantum, s, TraverseStmt(ds, quantum, s).0)
    decreases s
  {
    hide TraceOf, NumberOf, Traverse, Shaped, FoundIn, CastsKeep, Analyze;
    match s
    case Return(e) =>
      if quantum {
        AnalyzeKeepsTrace(ds, env, e, false);
        AnalyzeFits(ds, e, false);
      }
      TraverseKeepsMeaning(ds, env, ReturnValue(ds, quantum, e).0);
    case Expression(e) => TraverseKeepsMeaning(ds, env, e);
    case Block(stmts) => BlockKeepsMeaning(ds, env, quantum, stmts);
  }

  lemma {:induction false} BlockKeepsMeaning(ds: Declarations, env: Env, quantum: bool, stmts: seq<Stmt>)
    requires Shaped(ds) && !FoundInStmts(ds, Overflowing, quantum, stmts)
    ensures forall i | 0 <= i < |stmts| :: SameStmt(ds, env, quantum, stmts[i], TraverseStmts(ds, quantum, stmts).0[i])
    decreases stmts
  {
    hide TraverseStmt, Shaped, FoundInStmt, SameStmt;
    if stmts != [] {
      BodyKeepsMeaning(ds, env, quantum, stmts[0]);
      BlockKeepsMeaning(ds, env, quantum, stmts[1..]);
      var r := TraverseStmts(ds, quantum, stmts).0;
      forall i | 0 <= i < |stmts| ensures SameStmt(ds, env, quantum, stmts[i], r[i]) {
        assert i > 0 ==> r[i] == TraverseStmts(ds, quantum, stmts[1..]).0[i - 1] && stmts[i] == stmts[1..][i - 1];
      }
    }
  }

  // ----- Completeness -----

  /** What the walk establishes for a body. */
  ghost predicate CompleteStmt(ds: Declarations, quantum: bool, s: Stmt, t: (Stmt, bool)) {
    && t.1 == FoundInStmt(ds, Flawed(Fault), quantum, s)
    && (!t.1 ==> FoundInStmt(ds, Unsettled, quantum, t.0) == FoundInStmt(ds, Flawed(Wait), quantum, s))
    && (!t.1 ==>
          FoundInStmt(ds, StillRaw, quantum, t.0) ==
          (FoundInStmt(ds, Flawed(Mask), quantum, s) || FoundInStmt(ds, Flawed(Wait), quantum, s)))
  }

  /** An error is found exactly if the body as it was written has a fault.  Otherwise every
      QExpr argument and every QExpr returned is settled, but for conditional operators where
      cIf is not declared, and is an operator still exactly if it is one of these or was
      hidden. */
  lemma {:induction false} BodyComplete(ds: Declarations, quantum: bool, s: Stmt)
    requires Shaped(ds) && !StumblesInBody(ds, quantum, s)
    ensures CompleteStmt(ds, quantum, s, TraverseStmt(ds, quantum, s))
    decreases s
  {
    hide Traverse, Shaped, Analyze, FoundIn, Settled, Any, Positions, Raw, StumblesIn, Stumbles;
    match s
    case Return(e) => ReturnComplete(ds, quantum, e);
    case Expression(e) => TraverseComplete(ds, e);
    case Block(stmts) => BlockComplete(ds, quantum, stmts);
  }

  lemma {:induction false} ReturnComplete(ds: Declarations, quantum: bool, e: Expr)
    requires Shaped(ds) && !StumblesInBody(ds, quantum, Return(e))
    ensures CompleteStmt(ds, quantum, Return(e), TraverseStmt(ds, quantum, Return(e)))
  {
    hide Traverse, Shaped, Analyze, FoundIn, Settled, Any, Positions, Raw, StumblesIn, Stumbles, Ready;
    var (v, err) := ReturnValue(ds, quantum, e);
    TraverseComplete(ds, v);
    if quantum {
      FlagMeansFault(ds, e, false);
      if !err {
        ArgumentKept(ds, e);
        ReadyLooks(ds, v);
      }
    }
  }

  ghost predicate CompleteStmts(ds: Declarations, quantum: bool, stmts: seq<Stmt>, t: (seq<Stmt>, bool)) {
    && t.1 == FoundInStmts(ds, Flawed(Fault), quantum, stmts)
    && (!t.1 ==> FoundInStmts(ds, Unsettled, quantum, t.0) == FoundInStmts(ds, Flawed(Wait), quantum, stmts))
    && (!t.1 ==>
          FoundInStmts(ds, StillRaw, quantum, t.0) ==
          (FoundInStmts(ds, Flawed(Mask), quantum, stmts) || FoundInStmts(ds, Flawed(Wait), quantum, stmts)))
  }

  lemma {:induction false} BlockComplete(ds: Declarations, quantum: bool, stmts: seq<Stmt>)
    requires Shaped(ds) && !StumblesInBlock(ds, quantum, stmts)
    ensures CompleteStmts(ds, quantum, stmts, TraverseStmts(ds, quantum, stmts))
    decreases stmts
  {
    hide TraverseStmt, Shaped, FoundInStmt, StumblesInBody;
    if stmts != [] {
      BodyComplete(ds, quantum, stmts[0]);
      BlockComplete(ds, quantum, stmts[1..]);
      var first, rest := TraverseStmt(ds, quantum, stmts[0]), TraverseStmts(ds, quantum, stmts[1..]);
      assert ([first.0] + rest.0)[1..] == rest.0;
    }
  }

  /** Once cIf is declared nothing waits for it. */
  lemma {:induction false} NoBodyWaits(ds: Declarations, quantum: bool, s: Stmt)
    requires CIF in ds
    ensures !FoundInStmt(ds, Flawed(Wait), quantum, s)
    decreases s
  {
    hide FoundIn, Positions;
    match s
    case Return(e) => NothingWaits(ds, e);
    case Expression(e) => NothingWaits(ds, e);
    case Block(stmts) => NoBlockWaits(ds, quantum, stmts);
  }

  lemma {:induction false} NoBlockWaits(ds: Declarations, quantum: bool, stmts: seq<Stmt>)
    requires CIF in ds
    ensures !FoundInStmts(ds, Flawed(Wait), quantum, stmts)
    decreases stmts
  {
    hide FoundInStmt;
    if stmts != [] {
      NoBodyWaits(ds, quantum, stmts[0]);
      NoBlockWaits(ds, quantum, stmts[1..]);
    }
  }

  /** Then every QExpr argument and every QExpr returned is settled, and only hidden operators
      stay. */
  lemma {:induction false} DeclaredBodyComplete(ds: Declarations, quantum: bool, s: Stmt)
    requires Declared(ds)
    ensures var t := TraverseStmt(ds, quantum, s);
            && t.1 == FoundInStmt(ds, Flawed(Fault), quantum, s)
            && (!t.1 ==> !FoundInStmt(ds, Unsettled, quantum, t.0))
            && (!t.1 ==> FoundInStmt(ds, StillRaw, quantum, t.0) == FoundInStmt(ds, Flawed(Mask), quantum, s))
  {
    hide TraverseStmt, FoundInStmt, Shaped;
    BodyNeverStumbles(ds, quantum, s);
    NoBodyWaits(ds, quantum, s);
    BodyComplete(ds, quantum, s);
  }

  // ----- Products and sums -----

  /** A1 * A2 * ... * An, as it is parsed. */
  function Product(es: seq<Expr>, ty: Type): Expr
    requires es != []
    decreases |es|
  {
    if |es| == 1 then es[0] else Binary(Mul, Product(es[..|es| - 1], ty), es[|es| - 1], ty)
  }

  /** A1 + A2 + ... + An. */
  function Sum(es: seq<Expr>, ty: Type): Expr
    requires es != []
    decreases |es|
  {
    if |es| == 1 then es[0] else Binary(Add, Sum(es[..|es| - 1], ty), es[|es| - 1], ty)
  }

  function Backwards(es: seq<Expr>): (r: seq<Expr>)
    ensures |r| == |es|
  {
    if es == [] then [] else Backwards(es[1..]) + [es[0]]
  }

  lemma {:induction false} BackwardsLast(es: seq<Expr>)
    requires es != []
    ensures Backwards(es) == [es[|es| - 1]] + Backwards(es[..|es| - 1])
    decreases |es|
  {
    if |es| > 1 {
      BackwardsLast(es[1..]);
      assert es[1..][..|es| - 2] == es[..|es| - 1][1..];
    }
  }

  lemma {:induction false} SumFromFirst(ds: Declarations, env: Env, es: seq<Expr>, ty: Type)
    requires |es| > 1
    ensures TraceOf(ds, env, Sum(es, ty)) == TraceOf(ds, env, es[0]) + TraceOf(ds, env, Sum(es[1..], ty))
    decreases |es|
  {
    var n := |es|;
    if n > 2 {
      SumFromFirst(ds, env, es[..n - 1], ty);
      assert es[..n - 1][1..] == es[1..][..n - 2];
    } else {
      assert es[..1] == [es[0]] && es[1..] == [es[1]];
    }
  }

  /** A product and the sum of the same factors the other way round apply the same gates. */
  lemma {:induction false} ProductIsReversedSum(ds: Declarations, env: Env, es: seq<Expr>, ty: Type)
    requires es != []
    ensures TraceOf(ds, env, Product(es, ty)) == TraceOf(ds, env, Sum(Backwards(es), ty))
    decreases |es|
  {
    hide Backwards;
    BackwardsLast(es);
    var front, r := es[..|es| - 1], Backwards(es);
    assert r[0] == es[|es| - 1] && r[1..] == Backwards(front);
    if |es| > 1 {
      ProductIsReversedSum(ds, env, front, ty);
      SumFromFirst(ds, env, r, ty);
    }
  }

  lemma {:induction false} ChainsFit(es: seq<Expr>, ty: Type)
    requires es != [] && forall i | 0 <= i < |es| :: CastsKeep(es[i])
    ensures CastsKeep(Product(es, ty)) && CastsKeep(Sum(es, ty))
    decreases |es|
  {
    hide CastsKeep;
    if |es| > 1 {
      var front, last := es[..|es| - 1], es[|es| - 1];
      ChainsFit(front, ty);
      OperatorFits(Mul, Product(front, ty), last, ty);
      OperatorFits(Add, Sum(front, ty), last, ty);
    }
  }

  lemma {:induction false} OperatorFits(op: BinaryOp, l: Expr, r: Expr, ty: Type)
    requires !op.Xor? && CastsKeep(l) && CastsKeep(r)
    ensures CastsKeep(Binary(op, l, r, ty))
  {
  }

  lemma {:induction false} BackwardsHas(es: seq<Expr>, i: nat)
    requires i < |es|
    ensures Backwards(es)[i] == es[|es| - 1 - i]
    decreases |es|
  {
    if i < |es| - 1 {
      BackwardsHas(es[1..], i);
    }
  }

  predicate SomeFaulty(ds: Declarations, es: seq<Expr>) {
    exists i :: 0 <= i < |es| && Any(ds, Fault, Positions(es[i]))
  }

  /** Products and sums have the faults of their factors and no other. */
  lemma {:induction false} ChainFaults(ds: Declarations, es: seq<Expr>, ty: Type)
    requires Declared(ds) && es != []
    ensures Any(ds, Fault, Positions(Product(es, ty))) <==> SomeFaulty(ds, es)
    ensures Any(ds, Fault, Positions(Sum(es, ty))) <==> SomeFaulty(ds, es)
    decreases |es|
  {
    hide Any, Positions, Shaped;
    if |es| > 1 {
      var front, last := es[..|es| - 1], es[|es| - 1];
      ChainFaults(ds, front, ty);
      WhatIsAFault(ds, Product(es, ty), Product(es, ty));
      WhatIsAFault(ds, Sum(es, ty), Sum(es, ty));
      AnyPosition(ds, Fault, Product(es, ty));
      AnyPosition(ds, Fault, Sum(es, ty));
      LastFaulty(ds, es);
    }
  }

  lemma {:induction false} LastFaulty(ds: Declarations, es: seq<Expr>)
    requires |es| > 1
    ensures SomeFaulty(ds, es) <==>
            SomeFaulty(ds, es[..|es| - 1]) || Any(ds, Fault, Positions(es[|es| - 1]))
  {
    hide Any, Positions;
    var front := es[..|es| - 1];
    if SomeFaulty(ds, front) {
      var i :| 0 <= i < |front| && Any(ds, Fault, Positions(front[i]));
      assert es[i] == front[i];
    }
    if SomeFaulty(ds, es) {
      var i :| 0 <= i < |es| && Any(ds, Fault, Positions(es[i]));
      assert i < |front| ==> front[i] == es[i];
    }
  }

  lemma {:induction false} BackwardsFaulty(ds: Declarations, es: seq<Expr>)
    ensures SomeFaulty(ds, Backwards(es)) <==> SomeFaulty(ds, es)
  {
    hide Any, Positions, Backwards;
    forall i | 0 <= i < |es| ensures Backwards(es)[i] == es[|es| - 1 - i] {
      BackwardsHas(es, i);
    }
    if SomeFaulty(ds, es) {
      var i :| 0 <= i < |es| && Any(ds, Fault, Positions(es[i]));
      assert Backwards(es)[|es| - 1 - i] == es[i];
    }
  }

  /** And so they do once both are rewritten, and both are exactly if no factor has a fault. */
  lemma {:induction false} RewrittenProductIsReversedSum(ds: Declarations, env: Env, es: seq<Expr>, ty: Type)
    requires Declared(ds) && es != [] && forall i | 0 <= i < |es| :: CastsKeep(es[i])
    ensures var a, b := Analyze(ds, Product(es, ty), false), Analyze(ds, Sum(Backwards(es), ty), false);
            && (a.err <==> SomeFaulty(ds, es))
            && (b.err <==> SomeFaulty(ds, es))
            && (!SomeFaulty(ds, es) ==>
                  a.result.Some? && b.result.Some? &&
                  TraceOf(ds, env, a.result.value) == TraceOf(ds, env, b.result.value))
  {
    hide TraceOf, Product, Sum, Shaped, CastsKeep, Backwards, Any, Positions, Analyze, SomeFaulty;
    ProductIsReversedSum(ds, env, es, ty);
    forall i | 0 <= i < |es| ensures CastsKeep(Backwards(es)[i]) {
      BackwardsHas(es, i);
    }
    ChainsFit(es, ty);
    ChainsFit(Backwards(es), ty);
    AnalyzeKeepsTrace(ds, env, Product(es, ty), false);
    AnalyzeKeepsTrace(ds, env, Sum(Backwards(es), ty), false);
    ChainFaults(ds, es, ty);
    ChainFaults(ds, Backwards(es), ty);
    BackwardsFaulty(ds, es);
    FaultlessComesToSomething(ds, Product(es, ty));
    FaultlessComesToSomething(ds, Sum(Backwards(es), ty));
  }

  // ----- Literal exponents -----

  lemma {:induction false} RepeatLength(n: nat, t: Trace)
    ensures |Repeat(n, t)| == n * |t|
    decreases n
  {
    if n > 0 {
      RepeatLength(n - 1, t);
      assert n * |t| == (n - 1) * |t| + |t|;
    }
  }

  lemma {:induction false} SamePower(m: nat, n: nat, t: Trace)
    ensures Power(m, t) == Power(n, t) <==> m == n || t == []
  {
    assert Power(m, t) == Repeat(m, t) && Power(n, t) == Repeat(n, t);
    hide Power, Repeat;
    RepeatLength(m, t);
    RepeatLength(n, t);
    if t == [] {
      assert |Repeat(m, t)| == 0 && |Repeat(n, t)| == 0;
    } else if Repeat(m, t) == Repeat(n, t) {
      SameMultiple(m, n, |t|);
    }
  }

  lemma {:induction false} SameMultiple(m: nat, n: nat, k: nat)
    requires m * k == n * k && k > 0
    ensures m == n
  {
    LargerMultiple(m, n, k);
    LargerMultiple(n, m, k);
  }

  lemma {:induction false} LargerMultiple(m: nat, n: nat, k: nat)
    requires k > 0
    ensures m < n ==> m * k < n * k
  {
    if k > 1 {
      LargerMultiple(m, n, k - 1);
      assert m * k == m * (k - 1) + m && n * k == n * (k - 1) + n;
    }
  }

  /** What the rewriter makes of `A ^ n` for a literal `n`, whatever A is: the cast that it
      puts around the literal takes it modulo 2^32. */
  lemma {:induction false} PowerTrace(ds: Declarations, env: Env, base: Expr, n: nat, ty: Type)
    requires Declared(ds) && CastsKeep(base) && !Analyze(ds, base, false).err
    ensures var e := Binary(Xor, base, IntLiteral(n), ty);
            var o := Analyze(ds, e, false);
            && !o.err && o.result.Some?
            && TraceOf(ds, env, e) == Power(n, TraceOf(ds, env, base))
            && TraceOf(ds, env, o.result.value) == Power(n % 0x1_0000_0000, TraceOf(ds, env, base))
  {
    hide Shaped, Power, CastsKeep, Analyze, TraceOf, NumberOf;
    TargetIs(ds, POWER);
    var literal := IntLiteral(n);
    var e := Binary(Xor, base, literal, ty);
    AnalyzeUnfolds(ds, e, false);
    AnalyzeKeepsTrace(ds, env, base, false);
    var inner := Analyze(ds, base, false).result.value;
    SameAdapted(literal, inner);
    PowerParts(ds, env, base, n, ty);
    assert |ds[POWER].params| == 2 by {
      PowerDeclared(ds);
    }
    CallMeaning(ds, env, POWER, [Cast(UnsignedInt, literal), inner]);
  }

  lemma {:induction false} PowerDeclared(ds: Declarations)
    requires Declared(ds)
    ensures POWER in ds && |ds[POWER].params| == 2
  {
  }

  lemma {:induction false} SameAdapted(literal: Expr, inner: Expr)
    requires literal.IntLiteral?
    ensures AdaptAll(POWER, [literal, inner]) == AdaptAll(POWER, [Cast(UnsignedInt, literal), inner])
  {
  }

  lemma {:induction false} PowerParts(ds: Declarations, env: Env, base: Expr, n: nat, ty: Type)
    ensures TraceOf(ds, env, Binary(Xor, base, IntLiteral(n), ty)) == Power(n, TraceOf(ds, env, base))
    ensures NumberOf(ds, env, Cast(UnsignedInt, IntLiteral(n))) == n % 0x1_0000_0000
  {
    hide Power;
  }

  /** The same gates, whatever the leaves and the functions stand for. */
  ghost predicate SameGates(ds: Declarations, a: Expr, b: Expr) {
    forall env: Env :: TraceOf(ds, env, a) == TraceOf(ds, env, b)
  }

  ghost predicate NoGates(ds: Declarations, a: Expr) {
    forall env: Env :: TraceOf(ds, env, a) == []
  }

  /** So it keeps its meaning exactly if `n` fits into 32 bits, or A never applies a gate. */
  lemma {:induction false} LiteralPower(ds: Declarations, base: Expr, n: nat, ty: Type)
    requires Declared(ds) && CastsKeep(base) && !Analyze(ds, base, false).err
    ensures var e := Binary(Xor, base, IntLiteral(n), ty);
            var o := Analyze(ds, e, false);
            && !o.err && o.result.Some?
            && (SameGates(ds, o.result.value, e) <==> n < 0x1_0000_0000 || NoGates(ds, base))
  {
    hide TraceOf, Analyze, Shaped, CastsKeep, Power;
    var e := Binary(Xor, base, IntLiteral(n), ty);
    var o := Analyze(ds, e, false);
    SomeEnv(ds, base, n, ty);
    var r := o.result.value;
    forall env: Env
      ensures TraceOf(ds, env, r) == TraceOf(ds, env, e) <==> n < 0x1_0000_0000 || TraceOf(ds, env, base) == []
    {
      PowerTrace(ds, env, base, n, ty);
      SamePower(n % 0x1_0000_0000, n, TraceOf(ds, env, base));
    }
    if SameGates(ds, r, e) && n >= 0x1_0000_0000 {
      forall env: Env ensures TraceOf(ds, env, base) == [] {
        assert TraceOf(ds, env, r) == TraceOf(ds, env, e);
      }
    }
    if n < 0x1_0000_0000 || NoGates(ds, base) {
      forall env: Env ensures TraceOf(ds, env, r) == TraceOf(ds, env, e) {
        assert n < 0x1_0000_0000 || TraceOf(ds, env, base) == [];
      }
    }
  }

  lemma {:induction false} SomeEnv(ds: Declarations, base: Expr, n: nat, ty: Type)
    requires Declared(ds) && CastsKeep(base) && !Analyze(ds, base, false).err
    ensures var o := Analyze(ds, Binary(Xor, base, IntLiteral(n), ty), false); !o.err && o.result.Some?
  {
    hide *;
    var env := Env(_ => [], _ => 0, (_, _) => [], (_, _) => 0, (_, _, _) => [], (_, _, _) => 0,
                   (_, _) => [], (_, _) => 0, (_, _) => 0);
    PowerTrace(ds, env, base, n, ty);
  }

  /** A ^ 4294967296, for a QExpr that is a leaf. */
  function LargePower(id: nat): Expr {
    Binary(Xor, Leaf(id, QEXPR), IntLiteral(0x1_0000_0000), QEXPR)
  }

  /** It is accepted, and does not apply the same gates afterwards. */
  lemma {:induction false} LargePowerIsLost(ds: Declarations, id: nat)
    requires Declared(ds)
    ensures var o := Analyze(ds, LargePower(id), false);
            !o.err && o.result.Some? && !SameGates(ds, o.result.value, LargePower(id))
  {
    var base := Leaf(id, QEXPR);
    var env := Env(_ => [Barrier], _ => 0, (_, _) => [], (_, _) => 0, (_, _, _) => [], (_, _, _) => 0,
                   (_, _) => [], (_, _) => 0, (_, _) => 0);
    assert TraceOf(ds, env, base) == [Barrier];
    assert CastsKeep(base) && !Analyze(ds, base, false).err;
    hide Analyze, Shaped, SameGates, TraceOf;
    assert !NoGates(ds, base);
    LiteralPower(ds, base, 0x1_0000_0000, QEXPR);
  }
}
