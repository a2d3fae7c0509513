/** The whole rewriting of an expression: a pre-order traversal that analyzes the arguments
    of every call that it meets, calls that it has just built included. */
module QExprTraversal {
  import opened Options
  import opened QExprSyntax
  import opened QExprMeaning
  import opened QExprRewriting
  import opened QExprQueries

  // ----- AnalyzeExpr of a first call, and VisitStmt -----

  /** The loop over the arguments; it ends where the parameters end. */
  function AnalyzeArgs(ds: Declarations, params: seq<Param>, args: seq<Expr>, err: bool): (r: (seq<Expr>, bool))
    ensures |r.0| == |args| && (err ==> r.1)
    decreases |args|
  {
    if args == [] || params == [] then (args, err)
    else
      var o := if Quantum(params[0]) then Analyze(ds, args[0], err) else Outcome(Some(args[0]), args[0], err);
      var rest := AnalyzeArgs(ds, params[1..], args[1..], o.err);
      ([Kept(o)] + rest.0, rest.1)
  }

  /** The object of an operator call is passed over. */
  function AnalyzeCallArgs(ds: Declarations, params: seq<Param>, args: seq<Expr>, cxx: bool,
          err: bool): (r: (seq<Expr>, bool))
    ensures |r.0| == |args| && (err ==> r.1)
  {
    if cxx && args != [] then
      var rest := AnalyzeArgs(ds, params, args[1..], err);
      ([args[0]] + rest.0, rest.1)
    else AnalyzeArgs(ds, params, args, err)
  }

  function AnalyzeFirst(ds: Declarations, e: Expr, err: bool): Outcome
    requires e.Call?
  {
    if Resolve(ds, e.callee).None? then Outcome(Some(e), e, err)
    else
      var args := AnalyzeCallArgs(ds, ParamsOf(ds, e.callee), e.args, e.isCXXOperator, err);
      var left := e.(args := args.0);
      Outcome(if args.1 then None else Some(left), left, args.1)
  }

  function Visit(ds: Declarations, e: Expr): (r: (Expr, bool))
    ensures !e.Call? ==> r == (e, false)
  {
    if e.Call? then
      var o := AnalyzeFirst(ds, e, false);
      (o.after, o.err)
    else (e, false)
  }

  // ----- The traversal ends -----

  /** Operators weigh enough to pay for the casts in the calls that replace them. */
  function Weight(e: Expr): (w: nat)
    ensures w > 0
    decreases e
  {
    match e
    case Materialize(sub, _) => 1 + Weight(sub)
    case Full(sub) => 1 + Weight(sub)
    case ToBool(sub) => 1 + Weight(sub)
    case Cast(_, sub) => 1 + Weight(sub)
    case Paren(sub) => 1 + Weight(sub)
    case Binary(_, l, r, _) => 3 + Weight(l) + Weight(r)
    case Unary(_, sub, _) => 3 + Weight(sub)
    case Conditional(c, t, f, _) => 4 + Weight(c) + Weight(t) + Weight(f)
    case Call(_, args, _, _) => 1 + WeightAll(args)
    case IntLiteral(_) => 1
    case Leaf(_, _) => 1
  }

  function WeightAll(args: seq<Expr>): nat
    decreases args
  {
    if args == [] then 0 else Weight(args[0]) + WeightAll(args[1..])
  }

  lemma {:induction false} AdaptWeight(name: string, args: seq<Expr>)
    ensures WeightAll(AdaptAll(name, args)) <= WeightAll(args) + |args|
    decreases |args|
  {
    if args != [] {
      AdaptWeight(name, args[1..]);
      assert AdaptAll(name, args)[1..] == AdaptAll(name, args[1..]);
    }
  }

  ghost predicate Shrinks(e: Expr, o: Outcome) {
    Weight(o.after) <= Weight(e) && (o.result.Some? ==> Weight(o.result.value) <= Weight(e))
  }

  lemma {:induction false} RewrapWeight(e: Expr, inner: Expr)
    ensures Weight(Rewrap(e, inner)) == Weight(e) - Weight(Strip(e)) + Weight(inner)
  {
  }

  lemma {:induction false} BuiltShrinks(ds: Declarations, e: Expr, left: Expr, name: Option<string>, args: seq<Expr>)
    requires Weight(left) <= Weight(e) && 1 + WeightAll(args) + |args| <= Weight(Strip(e))
    ensures Shrinks(e, Built(e, left, OptionalCall(ds, name, args)))
  {
    if name.Some? {
      AdaptWeight(name.value, args);
    }
  }

  lemma {:induction false} NothingBuilt(e: Expr, left: Expr)
    requires Weight(left) <= Weight(e)
    ensures Shrinks(e, Built(e, left, None))
  {
  }

  lemma {:induction false} WeightThree(a: Expr, b: Expr, c: Expr)
    ensures WeightAll([a]) == Weight(a) && WeightAll([a, b]) == Weight(a) + Weight(b)
    ensures WeightAll([a, b, c]) == Weight(a) + Weight(b) + Weight(c)
  {
    hide Weight;
    var none: seq<Expr> := [];
    assert [a][1..] == none && [b][1..] == none && [c][1..] == none;
    assert [a, b][1..] == [b] && [b, c][1..] == [c] && [a, b, c][1..] == [b, c];
    assert WeightAll([a]) == Weight(a) && WeightAll([b]) == Weight(b) && WeightAll([c]) == Weight(c);
    assert WeightAll([b, c]) == Weight(b) + WeightAll([c]);
  }

  lemma {:induction false} BinaryShrinks(ds: Declarations, e: Expr, op: BinaryOp, l: Expr, r: Expr, ty: Type,
          L: Outcome, R: Outcome)
    requires Strip(e) == Binary(op, l, r, ty) && Shrinks(l, L) && Shrinks(r, R)
    ensures Shrinks(e, BinaryOutcome(ds, e, op, ty, L, R))
  {
    hide Built, OptionalCall, Rewrap, WeightAll;
    var left := Rewrap(e, Binary(op, L.after, R.after, ty));
    RewrapWeight(e, Binary(op, L.after, R.after, ty));
    if !R.err && (L.result.None? || R.result.None?) {
      NothingBuilt(e, left);
    } else if !R.err {
      WeightThree(L.result.value, R.result.value, l);
      WeightThree(R.result.value, L.result.value, l);
      BuiltShrinks(ds, e, left, BinaryTarget(op),
                   if Flips(op) then [R.result.value, L.result.value] else [L.result.value, R.result.value]);
    }
  }

  lemma {:induction false} UnaryShrinks(ds: Declarations, e: Expr, op: UnaryOp, sub: Expr, ty: Type, S: Outcome)
    requires Strip(e) == Unary(op, sub, ty) && Shrinks(sub, S)
    ensures Shrinks(e, UnaryOutcome(ds, e, op, ty, S))
  {
    hide Built, OptionalCall, Rewrap, WeightAll;
    RewrapWeight(e, Unary(op, S.after, ty));
    if !S.err && S.result.None? {
      NothingBuilt(e, Rewrap(e, Unary(op, S.after, ty)));
    } else if !S.err {
      WeightThree(Operand(op, S.result.value), sub, sub);
      BuiltShrinks(ds, e, Rewrap(e, Unary(op, S.after, ty)), UnaryTarget(op), [Operand(op, S.result.value)]);
    }
  }

  lemma {:induction false} ConditionalShrinks(ds: Declarations, e: Expr, c: Expr, t: Expr, f: Expr, ty: Type,
          T: Outcome, F: Outcome)
    requires Strip(e) == Conditional(c, t, f, ty) && Shrinks(t, T) && Shrinks(f, F)
    ensures Shrinks(e, ConditionalOutcome(ds, e, c, ty, T, F))
  {
    hide Built, OptionalCall, Rewrap, WeightAll, CallTo;
    RewrapWeight(e, Conditional(c, T.after, F.after, ty));
    if !F.err && CIF in ds && T.result.Some? && F.result.Some? {
      var args := [c, T.result.value, F.result.value];
      WeightThree(c, T.result.value, F.result.value);
      BuiltShrinks(ds, e, Rewrap(e, Conditional(c, T.after, F.after, ty)), Some(CIF), args);
      CallIsOptional(ds, CIF, args);
    }
  }

  lemma {:induction false} AnalyzeShrinks(ds: Declarations, e: Expr, err: bool)
    ensures Shrinks(e, Analyze(ds, e, err))
    decreases e
  {
    hide BinaryOutcome, UnaryOutcome, ConditionalOutcome, ParenOutcome, Shrinks;
    match Strip(e)
    case Binary(op, l, r, ty) =>
      AnalyzeShrinks(ds, l, err);
      var L := Analyze(ds, l, err);
      if !op.Xor? {
        AnalyzeShrinks(ds, r, L.err);
      } else {
        NothingShrinks(r, Outcome(Some(r), r, L.err));
      }
      BinaryShrinks(ds, e, op, l, r, ty, L, if op.Xor? then Outcome(Some(r), r, L.err) else Analyze(ds, r, L.err));
    case Unary(op, sub, ty) =>
      AnalyzeShrinks(ds, sub, err);
      UnaryShrinks(ds, e, op, sub, ty, Analyze(ds, sub, err));
    case Conditional(c, t, f, ty) =>
      AnalyzeShrinks(ds, t, err);
      var T := Analyze(ds, t, err);
      AnalyzeShrinks(ds, f, T.err);
      ConditionalShrinks(ds, e, c, t, f, ty, T, Analyze(ds, f, T.err));
    case Paren(sub) =>
      AnalyzeShrinks(ds, sub, err);
      ParenShrinks(e, sub, Analyze(ds, sub, err));
    case _ => NothingShrinks(e, Analyze(ds, e, err));
  }

  lemma {:induction false} ParenShrinks(e: Expr, sub: Expr, S: Outcome)
    requires Strip(e) == Paren(sub) && Shrinks(sub, S)
    ensures Shrinks(e, ParenOutcome(e, S))
  {
    RewrapWeight(e, Paren(Kept(S)));
  }

  lemma {:induction false} NothingShrinks(e: Expr, o: Outcome)
    requires o.after == e && (o.result.Some? ==> o.result.value == e)
    ensures Shrinks(e, o)
  {
  }

  lemma {:induction false} CallIsOptional(ds: Declarations, name: string, args: seq<Expr>)
    ensures OptionalCall(ds, Some(name), args) == CallTo(ds, name, args)
  {
  }

  lemma {:induction false} ArgsShrink(ds: Declarations, params: seq<Param>, args: seq<Expr>, err: bool)
    ensures WeightAll(AnalyzeArgs(ds, params, args, err).0) <= WeightAll(args)
    decreases |args|
  {
    hide Weight;
    if args != [] && params != [] {
      var o := if Quantum(params[0]) then Analyze(ds, args[0], err) else Outcome(Some(args[0]), args[0], err);
      AnalyzeShrinks(ds, args[0], err);
      ArgsShrink(ds, params[1..], args[1..], o.err);
      var rest := AnalyzeArgs(ds, params[1..], args[1..], o.err);
      assert ([Kept(o)] + rest.0)[1..] == rest.0;
    }
  }

  lemma {:induction false} VisitShrinks(ds: Declarations, e: Expr)
    ensures Weight(Visit(ds, e).0) <= Weight(e)
  {
    if e.Call? && Resolve(ds, e.callee).Some? {
      var params := ParamsOf(ds, e.callee);
      if e.isCXXOperator && e.args != [] {
        ArgsShrink(ds, params, e.args[1..], false);
        var rest := AnalyzeArgs(ds, params, e.args[1..], false);
        assert ([e.args[0]] + rest.0)[1..] == rest.0;
      } else {
        ArgsShrink(ds, params, e.args, false);
      }
    }
  }

  // ----- The traversal -----

  /** The rewritten tree, and whether an error was found.  The children are those that the
      node has after it was visited. */
  function Traverse(ds: Declarations, e: Expr): (r: (Expr, bool))
    decreases Weight(e), 0
  {
    VisitShrinks(ds, e);
    var (v, err) := Visit(ds, e);
    match v
    case Materialize(sub, bound) => var s := Traverse(ds, sub); (Materialize(s.0, bound), err || s.1)
    case Full(sub) => var s := Traverse(ds, sub); (Full(s.0), err || s.1)
    case ToBool(sub) => var s := Traverse(ds, sub); (ToBool(s.0), err || s.1)
    case Cast(ty, sub) => var s := Traverse(ds, sub); (Cast(ty, s.0), err || s.1)
    case Paren(sub) => var s := Traverse(ds, sub); (Paren(s.0), err || s.1)
    case Binary(op, l, r, ty) =>
      var a := Traverse(ds, l);
      var b := Traverse(ds, r);
      (Binary(op, a.0, b.0, ty), err || a.1 || b.1)
    case Unary(op, sub, ty) => var s := Traverse(ds, sub); (Unary(op, s.0, ty), err || s.1)
    case Conditional(c, t, f, ty) =>
      var a := Traverse(ds, c);
      var b := Traverse(ds, t);
      var d := Traverse(ds, f);
      (Conditional(a.0, b.0, d.0, ty), err || a.1 || b.1 || d.1)
    case Call(callee, args, cxx, ty) => var s := TraverseAll(ds, args); (Call(callee, s.0, cxx, ty), err || s.1)
    case IntLiteral(_) => (v, err)
    case Leaf(_, _) => (v, err)
  }

  function TraverseAll(ds: Declarations, args: seq<Expr>): (r: (seq<Expr>, bool))
    ensures |r.0| == |args|
    decreases WeightAll(args), 1 + |args|
  {
    if args == [] then ([], false)
    else
      var first := Traverse(ds, args[0]);
      var rest := TraverseAll(ds, args[1..]);
      ([first.0] + rest.0, first.1 || rest.1)
  }

  // ----- Where the walk dereferences null -----

  predicate StumblesArgs(ds: Declarations, params: seq<Param>, args: seq<Expr>, err: bool)
    decreases |args|
  {
    args != [] && params != [] &&
    var o := if Quantum(params[0]) then Analyze(ds, args[0], err) else Outcome(Some(args[0]), args[0], err);
    (Quantum(params[0]) && Stumbles(ds, args[0], err)) || StumblesArgs(ds, params[1..], args[1..], o.err)
  }

  /** The arguments of a call without the object of an operator call. */
  function Operands(e: Expr): seq<Expr>
    requires e.Call?
  {
    if e.isCXXOperator && e.args != [] then e.args[1..] else e.args
  }

  predicate StumblesFirst(ds: Declarations, e: Expr, err: bool) {
    e.Call? && StumblesArgs(ds, ParamsOf(ds, e.callee), Operands(e), err)
  }

  predicate StumblesIn(ds: Declarations, e: Expr)
    decreases Weight(e), 0
  {
    VisitShrinks(ds, e);
    || StumblesFirst(ds, e, false)
    || match Visit(ds, e).0
       case Materialize(sub, _) => StumblesIn(ds, sub)
       case Full(sub) => StumblesIn(ds, sub)
       case ToBool(sub) => StumblesIn(ds, sub)
       case Cast(_, sub) => StumblesIn(ds, sub)
       case Paren(sub) => StumblesIn(ds, sub)
       case Binary(_, l, r, _) => StumblesIn(ds, l) || StumblesIn(ds, r)
       case Unary(_, sub, _) => StumblesIn(ds, sub)
       case Conditional(c, t, f, _) => StumblesIn(ds, c) || StumblesIn(ds, t) || StumblesIn(ds, f)
       case Call(_, args, _, _) => StumblesInAny(ds, args)
       case IntLiteral(_) => false
       case Leaf(_, _) => false
  }

  predicate StumblesInAny(ds: Declarations, args: seq<Expr>)
    decreases WeightAll(args), 1 + |args|
  {
    args != [] && (StumblesIn(ds, args[0]) || StumblesInAny(ds, args[1..]))
  }

  lemma {:induction false} ArgsNeverStumble(ds: Declarations, params: seq<Param>, args: seq<Expr>, err: bool)
    requires CIF in ds
    ensures !StumblesArgs(ds, params, args, err)
    decreases |args|
  {
    hide Stumbles, Analyze;
    if args != [] && params != [] {
      NeverStumbles(ds, args[0], err);
      var o := if Quantum(params[0]) then Analyze(ds, args[0], err) else Outcome(Some(args[0]), args[0], err);
      ArgsNeverStumble(ds, params[1..], args[1..], o.err);
    }
  }

  lemma {:induction false} WalkNeverStumbles(ds: Declarations, e: Expr)
    requires CIF in ds
    ensures !StumblesIn(ds, e)
    decreases Weight(e), 0
  {
    hide StumblesArgs, StumblesIn, Visit, Weight, WeightAll, StumblesInAny;
    VisitShrinks(ds, e);
    StumblesInUnfolds(ds, e);
    if e.Call? {
      ArgsNeverStumble(ds, ParamsOf(ds, e.callee), Operands(e), false);
    }
    var v := Visit(ds, e).0;
    PartsWeigh(v);
    match v
    case Materialize(sub, _) => WalkNeverStumbles(ds, sub);
    case Full(sub) => WalkNeverStumbles(ds, sub);
    case ToBool(sub) => WalkNeverStumbles(ds, sub);
    case Cast(_, sub) => WalkNeverStumbles(ds, sub);
    case Paren(sub) => WalkNeverStumbles(ds, sub);
    case Binary(_, l, r, _) => WalkNeverStumbles(ds, l); WalkNeverStumbles(ds, r);
    case Unary(_, sub, _) => WalkNeverStumbles(ds, sub);
    case Conditional(c, t, f, _) =>
      WalkNeverStumbles(ds, c); WalkNeverStumbles(ds, t); WalkNeverStumbles(ds, f);
    case Call(_, args, _, _) => WalksNeverStumble(ds, args);
    case _ =>
  }

  lemma {:induction false} StumblesInUnfolds(ds: Declarations, e: Expr)
    ensures StumblesIn(ds, e) ==
            (|| StumblesFirst(ds, e, false)
             || match Visit(ds, e).0
                case Materialize(sub, _) => StumblesIn(ds, sub)
                case Full(sub) => StumblesIn(ds, sub)
                case ToBool(sub) => StumblesIn(ds, sub)
                case Cast(_, sub) => StumblesIn(ds, sub)
                case Paren(sub) => StumblesIn(ds, sub)
                case Binary(_, l, r, _) => StumblesIn(ds, l) || StumblesIn(ds, r)
                case Unary(_, sub, _) => StumblesIn(ds, sub)
                case Conditional(c, t, f, _) => StumblesIn(ds, c) || StumblesIn(ds, t) || StumblesIn(ds, f)
                case Call(_, args, _, _) => StumblesInAny(ds, args)
                case _ => false)
  {
    hide StumblesFirst, Visit, StumblesInAny;
  }

  lemma {:induction false} WalksNeverStumble(ds: Declarations, args: seq<Expr>)
    requires CIF in ds
    ensures !StumblesInAny(ds, args)
    decreases WeightAll(args), 1 + |args|
  {
    hide StumblesIn;
    if args != [] {
      WalkNeverStumbles(ds, args[0]);
      WalksNeverStumble(ds, args[1..]);
    }
  }

  // ----- What the traversal keeps of the meaning -----

  /** As a QExpr and as a number, `r` means the same as `e`. */
  ghost predicate SameMeaning(ds: Declarations, env: Env, e: Expr, r: Expr) {
    TraceOf(ds, env, r) == TraceOf(ds, env, e) && NumberOf(ds, env, r) == NumberOf(ds, env, e)
  }

  /** Where the parameter is a QExpr the arguments apply the same gates, and elsewhere they
      are the same number. */
  ghost predicate SameArgs(ds: Declarations, env: Env, params: seq<Param>, a: seq<Expr>, b: seq<Expr>) {
    |a| == |b| && forall i | 0 <= i < |a| ::
      if i < |params| && Quantum(params[i]) then TraceOf(ds, env, a[i]) == TraceOf(ds, env, b[i])
      else NumberOf(ds, env, a[i]) == NumberOf(ds, env, b[i])
  }

  lemma {:induction false} SameArgsMean(ds: Declarations, env: Env, params: seq<Param>, a: seq<Expr>, b: seq<Expr>)
    requires SameArgs(ds, env, params, a, b)
    ensures ArgsOf(ds, env, params, a) == ArgsOf(ds, env, params, b)
  {
    hide TraceOf, NumberOf, ArgsOf;
    ArgsAt(ds, env, params, a);
    ArgsAt(ds, env, params, b);
  }

  lemma {:induction false} AnalyzedArgsSame(ds: Declarations, env: Env, params: seq<Param>, args: seq<Expr>, err: bool)
    requires Shaped(ds) && !FoundInArgs(ds, Overflowing, params, args)
    ensures SameArgs(ds, env, params, AnalyzeArgs(ds, params, args, err).0, args)
    decreases |args|
  {
    hide TraceOf, NumberOf, Analyze, Shaped, FoundIn, FoundInArgs, CastsKeep, SameArgs;
    SameArgsSelf(ds, env, params, args);
    if args != [] && params != [] {
      HeadFits(ds, params, args);
      if Quantum(params[0]) {
        AnalyzeKeepsTrace(ds, env, args[0], err);
      }
      var o := if Quantum(params[0]) then Analyze(ds, args[0], err) else Outcome(Some(args[0]), args[0], err);
      AnalyzedArgsSame(ds, env, params[1..], args[1..], o.err);
      var rest := AnalyzeArgs(ds, params[1..], args[1..], o.err).0;
      SameArgsCons(ds, env, params, Kept(o), rest, args[0], args[1..]);
      assert [args[0]] + args[1..] == args;
    }
  }

  lemma {:induction false} SameArgsSelf(ds: Declarations, env: Env, params: seq<Param>, args: seq<Expr>)
    ensures SameArgs(ds, env, params, args, args)
  {
    hide TraceOf, NumberOf;
  }

  lemma {:induction false} HeadFits(ds: Declarations, params: seq<Param>, args: seq<Expr>)
    requires args != [] && params != [] && !FoundInArgs(ds, Overflowing, params, args)
    ensures (Quantum(params[0]) ==> CastsKeep(args[0])) && !FoundInArgs(ds, Overflowing, params[1..], args[1..])
  {
    hide FoundIn, CastsKeep;
  }

  lemma {:induction false} SameArgsCons(ds: Declarations, env: Env, params: seq<Param>, x: Expr, xs: seq<Expr>,
          y: Expr, ys: seq<Expr>)
    requires params != [] && SameArgs(ds, env, params[1..], xs, ys)
    requires if Quantum(params[0]) then TraceOf(ds, env, x) == TraceOf(ds, env, y)
             else NumberOf(ds, env, x) == NumberOf(ds, env, y)
    ensures SameArgs(ds, env, params, [x] + xs, [y] + ys)
  {
    hide TraceOf, NumberOf;
    forall i | 0 <= i < |xs| + 1
      ensures if i < |params| && Quantum(params[i])
              then TraceOf(ds, env, ([x] + xs)[i]) == TraceOf(ds, env, ([y] + ys)[i])
              else NumberOf(ds, env, ([x] + xs)[i]) == NumberOf(ds, env, ([y] + ys)[i])
    {
      if i > 0 {
        assert ([x] + xs)[i] == xs[i - 1] && ([y] + ys)[i] == ys[i - 1] &&
          (i < |params| ==> params[i] == params[1..][i - 1]);
      }
    }
  }

  /** Two calls of the same callee with such arguments mean the same. */
  lemma {:induction false} SameCalls(ds: Declarations, env: Env, callee: Callee, a: seq<Expr>, b: seq<Expr>,
          cxx: bool, ty: Type)
    requires |a| == |b|
    requires cxx && a != [] ==>
               NumberOf(ds, env, a[0]) == NumberOf(ds, env, b[0]) &&
                 SameArgs(ds, env, ParamsOf(ds, callee), a[1..], b[1..])
    requires !(cxx && a != []) ==> SameArgs(ds, env, ParamsOf(ds, callee), a, b)
    ensures SameMeaning(ds, env, Call(callee, b, cxx, ty), Call(callee, a, cxx, ty))
  {
    var params := ParamsOf(ds, callee);
    if cxx && a != [] {
      SameArgsMean(ds, env, params, a[1..], b[1..]);
    } else {
      SameArgsMean(ds, env, params, a, b);
    }
    assert CallArgs(ds, env, callee, a, cxx) == CallArgs(ds, env, callee, b, cxx);
    hide ArgsOf, CallArgs;
  }

  lemma {:induction false} VisitKeepsMeaning(ds: Declarations, env: Env, e: Expr)
    requires Shaped(ds) && !FoundIn(ds, Overflowing, e)
    ensures SameMeaning(ds, env, e, Visit(ds, e).0)
  {
    hide TraceOf, NumberOf, Analyze, Shaped, SameArgs, FoundIn;
    FoundParts(ds, Overflowing, e);
    if e.Call? && Resolve(ds, e.callee).Some? {
      var params := ParamsOf(ds, e.callee);
      var args := Visit(ds, e).0.args;
      if e.isCXXOperator && e.args != [] {
        AnalyzedArgsSame(ds, env, params, e.args[1..], false);
        assert args[1..] == AnalyzeArgs(ds, params, e.args[1..], false).0;
      } else {
        AnalyzedArgsSame(ds, env, params, e.args, false);
      }
      SameCalls(ds, env, e.callee, args, e.args, e.isCXXOperator, e.ty);
    }
  }

  // ----- What the traversal keeps of the literals -----

  /** No literal in `e` that a cast changes, now or when the calls in it are visited. */
  ghost predicate NoOverflow(ds: Declarations, e: Expr) {
    CastsKeep(e) && !FoundIn(ds, Overflowing, e)
  }

  ghost predicate NoOverflowOn(ds: Declarations, o: Outcome) {
    NoOverflow(ds, o.after) && (o.result.Some? ==> NoOverflow(ds, o.result.value))
  }

  lemma {:induction false} NoOverflowParts(ds: Declarations, e: Expr, inner: Expr)
    requires Strip(inner) == inner
    ensures NoOverflow(ds, Rewrap(e, inner)) == NoOverflow(ds, inner)
    ensures NoOverflow(ds, inner) ==
            match inner
            case Binary(op, l, r, _) =>
              NoOverflow(ds, l) && if op.Xor? then Fits(POWER, r) && !FoundIn(ds, Overflowing, r) else NoOverflow(ds, r)
            case Unary(_, sub, _) => NoOverflow(ds, sub)
            case Paren(sub) => NoOverflow(ds, sub)
            case Conditional(c, t, f, _) =>
              Fits(CIF, c) && !FoundIn(ds, Overflowing, c) && NoOverflow(ds, t) && NoOverflow(ds, f)
            case _ => !FoundIn(ds, Overflowing, inner)
  {
    hide FoundInArgs, Fits;
    WrappedFound(ds, Overflowing, e, inner);
  }

  /** The arguments of a new call, with literals cast. */
  lemma {:induction false} BuiltFits(ds: Declarations, e: Expr, left: Expr, name: string, args: seq<Expr>)
    requires Shaped(ds) && name in FIVE && name in ds && |args| == |ds[name].params| && NoOverflow(ds, left)
    requires forall i | 0 <= i < |args| :: !FoundIn(ds, Overflowing, args[i])
    requires forall i | 0 <= i < |args| && Quantum(ds[name].params[i]) :: CastsKeep(args[i])
    ensures NoOverflowOn(ds, Built(e, left, OptionalCall(ds, Some(name), args)))
  {
    hide FoundIn, FoundInArgs, CastsKeep, Shaped;
    TargetIs(ds, name);
    var call := Call(Direct(ds[name]), AdaptAll(name, args), false, ds[name].ret);
    AdaptedFits(ds, name, args);
    CallFits(ds, call);
    NoOverflowParts(ds, e, call);
    NoOverflowParts(ds, Full(call), call);
  }

  lemma {:induction false} AdaptedFits(ds: Declarations, name: string, args: seq<Expr>)
    requires name != "invert" && name in ds
    requires forall i | 0 <= i < |args| :: !FoundIn(ds, Overflowing, args[i])
    requires forall i | 0 <= i < |args| && i < |ds[name].params| && Quantum(ds[name].params[i]) :: CastsKeep(args[i])
    ensures !FoundInArgs(ds, Overflowing, ds[name].params, AdaptAll(name, args))
  {
    hide FoundInArgs;
    var adapted := AdaptAll(name, args);
    ArgsFound(ds, Overflowing, ds[name].params, adapted);
    hide CastsKeep, FoundIn;
    forall i | 0 <= i < |args|
      ensures !FoundIn(ds, Overflowing, adapted[i])
      ensures i < |ds[name].params| && Quantum(ds[name].params[i]) ==> CastsKeep(adapted[i])
    {
      AdaptFits(ds, name, args[i]);
    }
  }

  lemma {:induction false} AdaptFits(ds: Declarations, name: string, e: Expr)
    requires name != "invert"
    ensures FoundIn(ds, Overflowing, Adapt(name, e)) == FoundIn(ds, Overflowing, e)
    ensures CastsKeep(e) ==> CastsKeep(Adapt(name, e))
  {
  }

  lemma {:induction false} CallFits(ds: Declarations, e: Expr)
    requires e.Call? && !e.isCXXOperator && !FoundInArgs(ds, Overflowing, ParamsOf(ds, e.callee), e.args)
    ensures NoOverflow(ds, e) && NoOverflow(ds, Full(e)) && NoOverflow(ds, Materialize(e, true)) &&
            NoOverflow(ds, Materialize(e, false))
  {
  }

  /** An analysis brings no literal to where a cast changes it, errors or not. */
  lemma {:induction false} AnalyzeFits(ds: Declarations, e: Expr, err: bool)
    requires Shaped(ds) && NoOverflow(ds, e)
    ensures NoOverflowOn(ds, Analyze(ds, e, err))
    decreases e
  {
    hide Analyze, Built, OptionalCall, CallTo, CastsKeep, FoundIn, Fits, Rewrap, AdaptAll, Registered, Settled;
    AnalyzeUnfolds(ds, e, err);
    NoOverflowInside(ds, e);
    match Strip(e)
    case Binary(op, l, r, ty) =>
      AnalyzeFits(ds, l, err);
      var L := Analyze(ds, l, err);
      if !op.Xor? {
        AnalyzeFits(ds, r, L.err);
      }
      BinaryFits(ds, e, op, l, r, ty, L, if op.Xor? then Outcome(Some(r), r, L.err) else Analyze(ds, r, L.err));
    case Unary(op, sub, ty) =>
      AnalyzeFits(ds, sub, err);
      AnalyzeSettles(ds, sub, err);
      UnaryFits(ds, e, op, sub, ty, Analyze(ds, sub, err));
    case Paren(sub) =>
      AnalyzeFits(ds, sub, err);
      NoOverflowParts(ds, e, Paren(Kept(Analyze(ds, sub, err))));
    case Conditional(c, t, f, ty) =>
      AnalyzeFits(ds, t, err);
      var T := Analyze(ds, t, err);
      AnalyzeFits(ds, f, T.err);
      ConditionalFits(ds, e, c, ty, T, Analyze(ds, f, T.err));
    case _ =>
  }

  /** What holds on `e` holds on its parts. */
  lemma {:induction false} NoOverflowInside(ds: Declarations, e: Expr)
    requires NoOverflow(ds, e)
    ensures match Strip(e)
            case Binary(op, l, r, _) =>
              NoOverflow(ds, l) && if op.Xor? then Fits(POWER, r) && !FoundIn(ds, Overflowing, r) else NoOverflow(ds, r)
            case Unary(_, sub, _) => NoOverflow(ds, sub)
            case Paren(sub) => NoOverflow(ds, sub)
            case Conditional(c, t, f, _) =>
              Fits(CIF, c) && !FoundIn(ds, Overflowing, c) && NoOverflow(ds, t) && NoOverflow(ds, f)
            case _ => true
  {
    hide FoundInArgs, Fits;
    WrappedFound(ds, Overflowing, e, e);
  }

  /** Where no function can be called, the operator is left. */
  lemma {:induction false} NothingFits(ds: Declarations, e: Expr, left: Expr, name: Option<string>)
    requires NoOverflow(ds, left)
    ensures NoOverflowOn(ds, Built(e, left, None))
    ensures !Supported(ds, name) ==> forall args :: OptionalCall(ds, name, args) == None
  {
  }

  lemma {:induction false} BinaryFits(ds: Declarations, e: Expr, op: BinaryOp, l: Expr, r: Expr, ty: Type,
                                       L: Outcome, R: Outcome)
    requires Shaped(ds) && NoOverflowOn(ds, L)
    requires if op.Xor? then R.after == r && R.result == Some(r) && Fits(POWER, r) && !FoundIn(ds, Overflowing, r)
             else NoOverflowOn(ds, R)
    ensures NoOverflowOn(ds, BinaryOutcome(ds, e, op, ty, L, R))
  {
    hide CastsKeep, FoundIn, Fits, Rewrap, AdaptAll, OptionalCall, Built;
    var left := Rewrap(e, Binary(op, L.after, R.after, ty));
    NoOverflowParts(ds, e, Binary(op, L.after, R.after, ty));
    NothingFits(ds, e, left, BinaryTarget(op));
    if !R.err && L.result.Some? && R.result.Some? && Supported(ds, BinaryTarget(op)) {
      var args := if Flips(op) then [R.result.value, L.result.value] else [L.result.value, R.result.value];
      BuiltFits(ds, e, left, BinaryTarget(op).value, args);
    }
  }

  lemma {:induction false} UnaryFits(ds: Declarations, e: Expr, op: UnaryOp, sub: Expr, ty: Type, S: Outcome)
    requires Shaped(ds) && NoOverflowOn(ds, S) && (!S.err && S.result.Some? ==> Settled(ds, S.result.value))
    ensures NoOverflowOn(ds, UnaryOutcome(ds, e, op, ty, S))
  {
    hide CastsKeep, FoundIn, Rewrap, AdaptAll, OptionalCall, Built;
    var left := Rewrap(e, Unary(op, S.after, ty));
    NoOverflowParts(ds, e, Unary(op, S.after, ty));
    NothingFits(ds, e, left, UnaryTarget(op));
    if !S.err && S.result.Some? && Supported(ds, UnaryTarget(op)) {
      OperandFits(ds, op, S.result.value);
      BuiltFits(ds, e, left, INVERT, [Operand(op, S.result.value)]);
    }
  }

  lemma {:induction false} OperandFits(ds: Declarations, op: UnaryOp, e: Expr)
    requires NoOverflow(ds, e) && Settled(ds, e)
    ensures !FoundIn(ds, Overflowing, Operand(op, e))
    ensures CastsKeep(Operand(op, e))
  {
  }

  lemma {:induction false} ConditionalFits(ds: Declarations, e: Expr, c: Expr, ty: Type, T: Outcome, F: Outcome)
    requires Shaped(ds) && NoOverflowOn(ds, T) && NoOverflowOn(ds, F) && Fits(CIF, c) && !FoundIn(ds, Overflowing, c)
    ensures NoOverflowOn(ds, ConditionalOutcome(ds, e, c, ty, T, F))
  {
    hide CastsKeep, FoundIn, Fits, Rewrap, AdaptAll, OptionalCall, CallTo;
    var left := Rewrap(e, Conditional(c, T.after, F.after, ty));
    NoOverflowParts(ds, e, Conditional(c, T.after, F.after, ty));
    if !F.err && CIF in ds && T.result.Some? && F.result.Some? {
      hide Built;
      var args := [c, T.result.value, F.result.value];
      CallIsOptional(ds, CIF, args);
      BuiltFits(ds, e, left, CIF, args);
    }
  }

  lemma {:induction false} ArgsFit(ds: Declarations, params: seq<Param>, args: seq<Expr>, err: bool)
    requires Shaped(ds) && !FoundInArgs(ds, Overflowing, params, args)
    ensures !FoundInArgs(ds, Overflowing, params, AnalyzeArgs(ds, params, args, err).0)
    decreases |args|
  {
    hide Shaped, Analyze, FoundIn, CastsKeep;
    if args != [] && params != [] {
      if Quantum(params[0]) {
        AnalyzeFits(ds, args[0], err);
      }
      var o := if Quantum(params[0]) then Analyze(ds, args[0], err) else Outcome(Some(args[0]), args[0], err);
      ArgsFit(ds, params[1..], args[1..], o.err);
      var rest := AnalyzeArgs(ds, params[1..], args[1..], o.err).0;
      assert ([Kept(o)] + rest)[1..] == rest;
    }
  }

  lemma {:induction false} VisitFits(ds: Declarations, e: Expr)
    requires Shaped(ds) && !FoundIn(ds, Overflowing, e)
    ensures !FoundIn(ds, Overflowing, Visit(ds, e).0)
  {
    hide Shaped, FoundInArgs, FoundIn, AnalyzeArgs;
    FoundParts(ds, Overflowing, e);
    FoundParts(ds, Overflowing, Visit(ds, e).0);
    if e.Call? && Resolve(ds, e.callee).Some? {
      var params := ParamsOf(ds, e.callee);
      if e.isCXXOperator && e.args != [] {
        ArgsFit(ds, params, e.args[1..], false);
        var rest := AnalyzeArgs(ds, params, e.args[1..], false).0;
        assert ([e.args[0]] + rest)[1..] == rest;
      } else {
        ArgsFit(ds, params, e.args, false);
      }
    }
  }

  // ----- The meaning of the rewritten expression -----

  /** The rewritten expression applies the same gates in the same order as the original,
      and has the same value as a number, whether or not errors are found.  Literals must
      fit where a cast is put around them, and nowhere else. */
  lemma {:induction false} TraverseKeepsMeaning(ds: Declarations, env: Env, e: Expr)
    requires Shaped(ds) && !FoundIn(ds, Overflowing, e)
    ensures SameMeaning(ds, env, e, Traverse(ds, e).0)
    decreases Weight(e), 0
  {
    hide TraceOf, NumberOf, FoundIn, FoundInArgs, Visit, Weight, Shaped, Traverse, TraverseAll, SameMeaning;
    VisitKeepsMeaning(ds, env, e);
    VisitFits(ds, e);
    VisitShrinks(ds, e);
    var v := Visit(ds, e).0;
    TraverseUnfolds(ds, e);
    FoundParts(ds, Overflowing, v);
    PartsWeigh(v);
    match v {
      case Materialize(sub, _) => TraverseKeepsMeaning(ds, env, sub);
      case Full(sub) => TraverseKeepsMeaning(ds, env, sub);
      case ToBool(sub) => TraverseKeepsMeaning(ds, env, sub);
      case Cast(_, sub) => TraverseKeepsMeaning(ds, env, sub);
      case Paren(sub) => TraverseKeepsMeaning(ds, env, sub);
      case Binary(_, l, r, _) => TraverseKeepsMeaning(ds, env, l); TraverseKeepsMeaning(ds, env, r);
      case Unary(_, sub, _) => TraverseKeepsMeaning(ds, env, sub);
      case Conditional(c, t, f, _) =>
        TraverseKeepsMeaning(ds, env, c); TraverseKeepsMeaning(ds, env, t); TraverseKeepsMeaning(ds, env, f);
      case Call(_, args, _, _) =>
        NotFoundInCall(ds, Overflowing, v);
        TraverseAllKeepsMeaning(ds, env, args);
      case _ =>
    }
    PartsMean(ds, env, v, Traverse(ds, e).0);
    SameTrans(ds, env, e, v, Traverse(ds, e).0);
  }

  lemma {:induction false} TraverseAllKeepsMeaning(ds: Declarations, env: Env, args: seq<Expr>)
    requires Shaped(ds) && forall i | 0 <= i < |args| :: !FoundIn(ds, Overflowing, args[i])
    ensures forall i | 0 <= i < |args| :: SameMeaning(ds, env, args[i], TraverseAll(ds, args).0[i])
    decreases WeightAll(args), 1 + |args|
  {
    hide TraceOf, NumberOf, FoundIn, Shaped, Traverse, SameMeaning;
    if args != [] {
      TraverseKeepsMeaning(ds, env, args[0]);
      TraverseAllKeepsMeaning(ds, env, args[1..]);
    }
  }

  lemma {:induction false} SameTrans(ds: Declarations, env: Env, a: Expr, b: Expr, c: Expr)
    requires SameMeaning(ds, env, a, b) && SameMeaning(ds, env, b, c)
    ensures SameMeaning(ds, env, a, c)
  {
  }

  lemma {:induction false} PartsWeigh(e: Expr)
    ensures e.Binary? ==> Weight(e.lhs) < Weight(e) && Weight(e.rhs) < Weight(e)
    ensures e.Unary? || e.Paren? || e.Materialize? || e.Full? || e.ToBool? || e.Cast? ==> Weight(e.sub) < Weight(e)
    ensures e.Conditional? ==>
              Weight(e.cond) < Weight(e) && Weight(e.ifTrue) < Weight(e) && Weight(e.ifFalse) < Weight(e)
    ensures e.Call? ==> WeightAll(e.args) < Weight(e)
  {
  }

  /** The same node with other children. */
  ghost predicate SameShape(v: Expr, t: Expr) {
    match v
    case Materialize(_, bound) => t.Materialize? && t.bound == bound
    case Full(_) => t.Full?
    case ToBool(_) => t.ToBool?
    case Cast(ty, _) => t.Cast? && t.castTo == ty
    case Paren(_) => t.Paren?
    case Binary(op, _, _, ty) => t.Binary? && t.bop == op && t.ty == ty
    case Unary(op, _, ty) => t.Unary? && t.uop == op && t.ty == ty
    case Conditional(_, _, _, ty) => t.Conditional? && t.ty == ty
    case Call(callee, args, cxx, ty) => t.Call? && t.callee == callee && t.isCXXOperator == cxx && t.ty == ty &&
      |t.args| == |args|
    case IntLiteral(_) => t == v
    case Leaf(_, _) => t == v
  }

  lemma {:induction false} TraverseUnfolds(ds: Declarations, e: Expr)
    ensures var v := Visit(ds, e).0;
            var t := Traverse(ds, e).0;
            && SameShape(v, t)
            && (v.Binary? ==> t.lhs == Traverse(ds, v.lhs).0 && t.rhs == Traverse(ds, v.rhs).0)
            && (v.Unary? || v.Paren? || v.Materialize? || v.Full? || v.ToBool? || v.Cast? ==>
                t.sub == Traverse(ds, v.sub).0)
            && (v.Conditional? ==>
                  t.cond == Traverse(ds, v.cond).0 && t.ifTrue == Traverse(ds, v.ifTrue).0 &&
                    t.ifFalse == Traverse(ds, v.ifFalse).0)
            && (v.Call? ==> t.args == TraverseAll(ds, v.args).0)
  {
    hide Visit;
  }

  ghost predicate PartsSame(ds: Declarations, env: Env, v: Expr, t: Expr)
    requires SameShape(v, t)
  {
    && (v.Binary? ==> SameMeaning(ds, env, v.lhs, t.lhs) && SameMeaning(ds, env, v.rhs, t.rhs))
    && (v.Unary? || v.Paren? || v.Materialize? || v.Full? || v.ToBool? || v.Cast? ==>
        SameMeaning(ds, env, v.sub, t.sub))
    && (v.Conditional? ==>
          SameMeaning(ds, env, v.cond, t.cond) && SameMeaning(ds, env, v.ifTrue, t.ifTrue) &&
            SameMeaning(ds, env, v.ifFalse, t.ifFalse))
    && (v.Call? ==> forall i | 0 <= i < |v.args| :: SameMeaning(ds, env, v.args[i], t.args[i]))
  }

  lemma {:induction false} PartsMean(ds: Declarations, env: Env, v: Expr, t: Expr)
    requires SameShape(v, t) && PartsSame(ds, env, v, t)
    ensures SameMeaning(ds, env, v, t)
  {
    if v.Call? {
      CallPartsMean(ds, env, v, t);
    }
  }

  lemma {:induction false} CallPartsMean(ds: Declarations, env: Env, v: Expr, t: Expr)
    requires v.Call? && SameShape(v, t) && PartsSame(ds, env, v, t)
    ensures SameMeaning(ds, env, v, t)
  {
    hide TraceOf, NumberOf;
    if v.isCXXOperator && t.args != [] {
      forall i | 0 <= i < |v.args| - 1 ensures SameMeaning(ds, env, v.args[1..][i], t.args[1..][i]) {
        assert SameMeaning(ds, env, v.args[i + 1], t.args[i + 1]);
      }
      assert SameMeaning(ds, env, v.args[0], t.args[0]);
    }
    SameCalls(ds, env, v.callee, t.args, v.args, v.isCXXOperator, v.ty);
  }
}
