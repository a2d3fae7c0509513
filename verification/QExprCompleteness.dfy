/** What a traversal without an error leaves of the operators in QExpr arguments, at any depth,
    although each analysis stops at nested calls. */
module QExprCompleteness {
  import opened Options
  import opened QExprSyntax
  import opened QExprMeaning
  import opened QExprRewriting
  import opened QExprQueries
  import opened QExprTraversal

  /** In a QExpr argument: in the argument itself or in a call inside it. */
  predicate Total(ds: Declarations, flaw: Flaw, e: Expr) {
    Looks(ds, Flawed(flaw), e) || FoundIn(ds, Flawed(flaw), e)
  }

  // ----- An analysis moves flaws about, but neither adds nor removes any -----

  lemma {:induction false} AdaptSettled(ds: Declarations, name: string, e: Expr)
    requires name != "invert"
    ensures Settled(ds, e) ==> Adapt(name, e) == e
    ensures forall q :: FoundIn(ds, q, Adapt(name, e)) == FoundIn(ds, q, e)
  {
  }

  ghost predicate SettledArgs(ds: Declarations, params: seq<Param>, args: seq<Expr>) {
    forall i | 0 <= i < |args| && i < |params| && Quantum(params[i]) :: Settled(ds, args[i])
  }

  /** The call that takes the place of an operator holds the flaws of its arguments. */
  lemma {:induction false} BuiltTotal(ds: Declarations, flaw: Flaw, e: Expr, left: Expr, name: string, args: seq<Expr>)
    requires name in ds && name != "invert" && IsQExpr(ds[name].ret) && SettledArgs(ds, ds[name].params, args)
    ensures var o := Built(e, left, OptionalCall(ds, Some(name), args));
            !o.err && o.result.Some? && Total(ds, flaw, o.result.value) ==
              FoundInArgs(ds, Flawed(flaw), ds[name].params, args)
  {
    hide FoundInArgs, Looks;
    var adapted := AdaptAll(name, args);
    AdaptedFound(ds, Flawed(flaw), name, ds[name].params, args);
    var call := Call(Direct(ds[name]), adapted, false, ds[name].ret);
    var o := Built(e, left, Some(call));
    WrappedFound(ds, Flawed(flaw), o.result.value, call);
    AnyPosition(ds, flaw, o.result.value);
    assert ParamsOf(ds, Direct(ds[name])) == ds[name].params;
    NoFlaw(ds, flaw, o.result.value);
    assert !Looks(ds, Flawed(flaw), o.result.value) by {
      LooksIs(ds, flaw, o.result.value);
    }
  }

  lemma {:induction false} LooksIs(ds: Declarations, flaw: Flaw, e: Expr)
    ensures Looks(ds, Flawed(flaw), e) == Any(ds, flaw, Positions(e))
  {
  }

  lemma {:induction false} NoFlaw(ds: Declarations, flaw: Flaw, e: Expr)
    requires Strip(e).Call? && Settled(ds, e)
    ensures !Has(ds, flaw, e)
  {
  }

  lemma {:induction false} AdaptedFound(ds: Declarations, q: Query, name: string, params: seq<Param>, args: seq<Expr>)
    requires name != "invert" && SettledArgs(ds, params, args)
    ensures FoundInArgs(ds, q, params, AdaptAll(name, args)) == FoundInArgs(ds, q, params, args)
    decreases |args|
  {
    hide FoundIn, Looks, Settled;
    if args != [] {
      AdaptSettled(ds, name, args[0]);
      assert AdaptAll(name, args)[1..] == AdaptAll(name, args[1..]);
      AdaptedFound(ds, q, name, if params == [] then [] else params[1..], args[1..]);
    }
  }

  lemma {:induction false} FoundUnfolds(ds: Declarations, q: Query, params: seq<Param>, a: Expr, b: Expr, c: Expr)
    requires 1 <= |params| <= 3
    ensures var looks := (i: nat, e: Expr) requires i < |params| => Quantum(params[i]) && Looks(ds, q, e);
            && (|params| == 1 ==> FoundInArgs(ds, q, params, [a]) == (looks(0, a) || FoundIn(ds, q, a)))
            && (|params| == 2 ==>
                  FoundInArgs(ds, q, params, [a, b]) ==
                    (looks(0, a) || FoundIn(ds, q, a) || looks(1, b) || FoundIn(ds, q, b)))
            && (|params| == 3 ==>
                  FoundInArgs(ds, q, params, [a, b, c]) ==
                  (looks(0, a) || FoundIn(ds, q, a) || looks(1, b) || FoundIn(ds, q, b) || looks(2, c) ||
                   FoundIn(ds, q, c)))
  {
    hide FoundIn, Looks;
    var none: seq<Expr> := [];
    assert [a][1..] == none && [b][1..] == none && [c][1..] == none;
    assert [a, b][1..] == [b] && [b, c][1..] == [c] && [a, b, c][1..] == [b, c];
    if |params| == 2 {
      assert FoundInArgs(ds, q, params[1..], [b]) == ((Quantum(params[1]) && Looks(ds, q, b)) || FoundIn(ds, q, b));
    }
    if |params| == 3 {
      assert FoundInArgs(ds, q, params[1..][1..], [c]) ==
        ((Quantum(params[2]) && Looks(ds, q, c)) || FoundIn(ds, q, c));
      assert FoundInArgs(ds, q, params[1..], [b, c]) ==
             ((Quantum(params[1]) && Looks(ds, q, b)) || FoundIn(ds, q, b) ||
              FoundInArgs(ds, q, params[1..][1..], [c]));
    }
  }

  /** What is expected of an outcome: settled, and with the flaws that `e` had. */
  ghost predicate KeepsTotal(ds: Declarations, flaw: Flaw, e: Expr, o: Outcome) {
    !o.err && o.result.Some? && Settled(ds, o.result.value) && Total(ds, flaw, o.result.value) == Total(ds, flaw, e)
  }

  lemma {:induction false} OperatorTotal(ds: Declarations, flaw: Flaw, e: Expr)
    ensures Total(ds, flaw, e) ==
            match Strip(e)
            case Binary(op, l, r, _) =>
              Has(ds, flaw, e) || Total(ds, flaw, l) ||
                (if op.Xor? then FoundIn(ds, Flawed(flaw), r) else Total(ds, flaw, r))
            case Unary(_, sub, _) => Has(ds, flaw, e) || Total(ds, flaw, sub)
            case Paren(sub) => Has(ds, flaw, e) || Total(ds, flaw, sub)
            case Conditional(c, t, f, _) =>
              Has(ds, flaw, e) || FoundIn(ds, Flawed(flaw), c) || Total(ds, flaw, t) || Total(ds, flaw, f)
            case inner => Has(ds, flaw, e) || FoundIn(ds, Flawed(flaw), inner)
  {
    hide Any, Positions, Has;
    AnyPosition(ds, flaw, e);
    WrappedFound(ds, Flawed(flaw), e, e);
  }

  lemma {:induction false} BinaryKeepsTotal(ds: Declarations, flaw: Flaw, e: Expr, op: BinaryOp, l: Expr, r: Expr,
          ty: Type, L: Outcome, R: Outcome)
    requires Shaped(ds) && Strip(e) == Binary(op, l, r, ty) && Supported(ds, BinaryTarget(op)) &&
             KeepsTotal(ds, flaw, l, L)
    requires if op.Xor? then R == Outcome(Some(r), r, false) else KeepsTotal(ds, flaw, r, R)
    ensures KeepsTotal(ds, flaw, e, BinaryOutcome(ds, e, op, ty, L, R))
  {
    hide Any, Positions, FoundIn, FoundInArgs, Built, CallTo, Rewrap;
    var name := BinaryTarget(op).value;
    var left := Rewrap(e, Binary(op, L.after, R.after, ty));
    var args := if Flips(op) then [R.result.value, L.result.value] else [L.result.value, R.result.value];
    var params := ds[name].params;
    BuiltTotal(ds, flaw, e, left, name, args);
    OperatorSettles(ds, e, left, Some(name), args);
    OperatorTotal(ds, flaw, e);
    FoundUnfolds(ds, Flawed(flaw), params, args[0], args[1], e);
  }

  lemma {:induction false} UnaryKeepsTotal(ds: Declarations, flaw: Flaw, e: Expr, op: UnaryOp, sub: Expr, ty: Type,
          S: Outcome)
    requires Shaped(ds) && Strip(e) == Unary(op, sub, ty) && Supported(ds, UnaryTarget(op)) &&
             KeepsTotal(ds, flaw, sub, S)
    ensures KeepsTotal(ds, flaw, e, UnaryOutcome(ds, e, op, ty, S))
  {
    hide Any, Positions, FoundIn, FoundInArgs, Built, CallTo, Rewrap;
    var name := UnaryTarget(op).value;
    var left := Rewrap(e, Unary(op, S.after, ty));
    var args := [Operand(op, S.result.value)];
    OperandTotal(ds, flaw, op, S.result.value);
    BuiltTotal(ds, flaw, e, left, name, args);
    OperatorSettles(ds, e, left, Some(name), args);
    OperatorTotal(ds, flaw, e);
    FoundUnfolds(ds, Flawed(flaw), ds[name].params, args[0], e, e);
  }

  /** Below the cast to bool there is a call or something in parentheses. */
  lemma {:induction false} OperandTotal(ds: Declarations, flaw: Flaw, op: UnaryOp, e: Expr)
    requires Settled(ds, e)
    ensures Settled(ds, Operand(op, e)) && Total(ds, flaw, Operand(op, e)) == Total(ds, flaw, e)
  {
    hide Any, Positions, FoundInArgs;
    OperatorTotal(ds, flaw, e);
    OperatorTotal(ds, flaw, Operand(op, e));
  }

  lemma {:induction false} ConditionalKeepsTotal(ds: Declarations, flaw: Flaw, e: Expr, c: Expr, t: Expr, f: Expr,
          ty: Type, T: Outcome, F: Outcome)
    requires Shaped(ds) && CIF in ds && Strip(e) == Conditional(c, t, f, ty) && KeepsTotal(ds, flaw, t, T) &&
             KeepsTotal(ds, flaw, f, F)
    ensures KeepsTotal(ds, flaw, e, ConditionalOutcome(ds, e, c, ty, T, F))
  {
    hide Any, Positions, FoundIn, FoundInArgs, Built, CallTo, Rewrap;
    var left := Rewrap(e, Conditional(c, T.after, F.after, ty));
    var args := [c, T.result.value, F.result.value];
    CallIsOptional(ds, CIF, args);
    BuiltTotal(ds, flaw, e, left, CIF, args);
    OperatorSettles(ds, e, left, Some(CIF), args);
    OperatorTotal(ds, flaw, e);
    FoundUnfolds(ds, Flawed(flaw), ds[CIF].params, args[0], args[1], args[2]);
  }

  lemma {:induction false} ParenKeepsTotal(ds: Declarations, flaw: Flaw, e: Expr, sub: Expr, S: Outcome)
    requires Strip(e) == Paren(sub) && KeepsTotal(ds, flaw, sub, S)
    ensures KeepsTotal(ds, flaw, e, ParenOutcome(e, S))
  {
    hide Any, Positions, FoundIn;
    var r := Rewrap(e, Paren(S.result.value));
    OperatorTotal(ds, flaw, e);
    OperatorTotal(ds, flaw, r);
  }

  /** An analysis that returns something without an error moves the flaws of the expression to
      where the traversal will find them; it adds none and loses none. */
  lemma {:induction false} AnalyzeKeepsTotal(ds: Declarations, flaw: Flaw, e: Expr)
    requires Shaped(ds) && !Stumbles(ds, e, false)
    ensures var o := Analyze(ds, e, false); !o.err && o.result.Some? ==> KeepsTotal(ds, flaw, e, o)
    decreases e
  {
    hide BinaryOutcome, UnaryOutcome, ConditionalOutcome, ParenOutcome, KeepsTotal, Positions, Any, Shaped, Analyze,
         Stumbles;
    AnalyzeUnfolds(ds, e, false);
    if !Analyze(ds, e, false).err && Analyze(ds, e, false).result.Some? {
      AnalyzeGood(ds, e);
      match Strip(e)
      case Binary(op, l, r, ty) =>
        AnalyzeKeepsTotal(ds, flaw, l);
        if !op.Xor? {
          AnalyzeKeepsTotal(ds, flaw, r);
        }
        BinaryKeepsTotal(ds, flaw, e, op, l, r, ty, Analyze(ds, l, false),
                         if op.Xor? then Outcome(Some(r), r, false) else Analyze(ds, r, false));
      case Unary(op, sub, ty) =>
        AnalyzeKeepsTotal(ds, flaw, sub);
        UnaryKeepsTotal(ds, flaw, e, op, sub, ty, Analyze(ds, sub, false));
      case Paren(sub) =>
        AnalyzeKeepsTotal(ds, flaw, sub);
        ParenKeepsTotal(ds, flaw, e, sub, Analyze(ds, sub, false));
      case Conditional(c, t, f, ty) =>
        AnalyzeKeepsTotal(ds, flaw, t);
        AnalyzeKeepsTotal(ds, flaw, f);
        ConditionalKeepsTotal(ds, flaw, e, c, t, f, ty, Analyze(ds, t, false), Analyze(ds, f, false));
      case _ => LeafKeepsTotal(ds, flaw, e);
    }
  }

  lemma {:induction false} LeafKeepsTotal(ds: Declarations, flaw: Flaw, e: Expr)
    requires !Analyze(ds, e, false).err
    requires var inner := Strip(e); !inner.Binary? && !inner.Unary? && !inner.Paren? && !inner.Conditional?
    ensures KeepsTotal(ds, flaw, e, Analyze(ds, e, false))
  {
  }

  /** Without an error, the parts are analyzed without an error, and the operator is supported;
      operands of an operator come to something, and so do all parts of what does. */
  lemma {:induction false} AnalyzeGood(ds: Declarations, e: Expr)
    requires !Analyze(ds, e, false).err && !Stumbles(ds, e, false)
    ensures var some := Analyze(ds, e, false).result.Some?;
            match Strip(e)
            case Binary(op, l, r, _) =>
              && Good(ds, l) && (!op.Xor? ==> Good(ds, r)) && Supported(ds, BinaryTarget(op)) && some
            case Unary(op, sub, _) => Good(ds, sub) && Supported(ds, UnaryTarget(op)) && some
            case Paren(sub) =>
              && !Analyze(ds, sub, false).err && !Stumbles(ds, sub, false)
              && some == Analyze(ds, sub, false).result.Some?
            case Conditional(_, t, f, _) =>
              && !Analyze(ds, t, false).err && !Stumbles(ds, t, false)
              && !Analyze(ds, f, false).err && !Stumbles(ds, f, false)
              && some == (CIF in ds) && (some ==> Good(ds, t) && Good(ds, f))
            case _ => some
  {
    hide Rewrap, Analyze, Stumbles, BinaryOutcome, UnaryOutcome, ConditionalOutcome, BinaryTarget, UnaryTarget;
    AnalyzeUnfolds(ds, e, false);
    StumblesUnfolds(ds, e, false);
    match Strip(e)
    case Binary(op, l, r, ty) =>
      var L := Analyze(ds, l, false);
      BinaryFlags(ds, e, op, ty, L, if op.Xor? then Outcome(Some(r), r, L.err) else Analyze(ds, r, L.err));
    case Unary(op, sub, ty) => UnaryFlags(ds, e, op, ty, Analyze(ds, sub, false));
    case Conditional(c, t, f, ty) =>
      var T := Analyze(ds, t, false);
      ConditionalFlags(ds, e, c, ty, T, Analyze(ds, f, T.err));
      NoneWithout(ds, e, c, ty, T, Analyze(ds, f, T.err));
    case _ =>
  }

  lemma {:induction false} NoneWithout(ds: Declarations, e: Expr, c: Expr, ty: Type, T: Outcome, F: Outcome)
    ensures CIF !in ds ==> ConditionalOutcome(ds, e, c, ty, T, F).result.None?
  {
  }

  predicate Good(ds: Declarations, e: Expr) {
    !Analyze(ds, e, false).err && Analyze(ds, e, false).result.Some? && !Stumbles(ds, e, false)
  }

  // ----- What an analysis leaves in place -----

  /** What is left in place has the faults that calls inside it had. */
  ghost predicate LeavesFaults(ds: Declarations, e: Expr, after: Expr) {
    !Any(ds, Fault, Positions(after)) && FoundIn(ds, Flawed(Fault), after) == FoundIn(ds, Flawed(Fault), e)
  }

  lemma {:induction false} AfterKeepsFaults(ds: Declarations, e: Expr)
    requires Shaped(ds) && !Analyze(ds, e, false).err && !Stumbles(ds, e, false)
    ensures LeavesFaults(ds, e, Analyze(ds, e, false).after)
    decreases e
  {
    hide BinaryOutcome, UnaryOutcome, ConditionalOutcome, ParenOutcome, Positions, Any, Shaped, Analyze, Stumbles,
         LeavesFaults, FoundIn;
    AnalyzeGood(ds, e);
    AnalyzeUnfolds(ds, e, false);
    match Strip(e)
    case Binary(op, l, r, ty) =>
      AfterKeepsFaults(ds, l);
      if !op.Xor? {
        AfterKeepsFaults(ds, r);
      }
      var R := if op.Xor? then Outcome(Some(r), r, false) else Analyze(ds, r, false);
      AfterBinary(ds, e, op, l, r, ty, Analyze(ds, l, false), R);
    case Unary(op, sub, ty) =>
      AfterKeepsFaults(ds, sub);
      AfterUnary(ds, e, op, sub, ty, Analyze(ds, sub, false));
    case Paren(sub) =>
      AfterKeepsFaults(ds, sub);
      AfterParen(ds, e, sub);
    case Conditional(c, t, f, ty) =>
      AfterKeepsFaults(ds, t);
      AfterKeepsFaults(ds, f);
      AfterConditional(ds, e, c, t, f, ty, Analyze(ds, t, false), Analyze(ds, f, false));
    case _ => AfterLeaf(ds, e);
  }

  lemma {:induction false} AfterLeaf(ds: Declarations, e: Expr)
    requires !Analyze(ds, e, false).err
    requires var inner := Strip(e); !inner.Binary? && !inner.Unary? && !inner.Paren? && !inner.Conditional?
    ensures LeavesFaults(ds, e, Analyze(ds, e, false).after)
  {
    AnyPosition(ds, Fault, e);
    hide Any, Positions;
  }

  /** In place of a full expression the new call is left. */
  lemma {:induction false} AfterFull(ds: Declarations, e: Expr)
    requires Shaped(ds) && Good(ds, e) && Analyze(ds, e, false).after == Analyze(ds, e, false).result.value
    ensures LeavesFaults(ds, e, Analyze(ds, e, false).after)
  {
    hide Any, Positions, Analyze, FoundIn, Stumbles;
    AnalyzeKeepsTotal(ds, Fault, e);
    FlagMeansFault(ds, e, false);
    SettledLooks(ds, Analyze(ds, e, false).result.value);
  }

  lemma {:induction false} AfterBinary(ds: Declarations, e: Expr, op: BinaryOp, l: Expr, r: Expr, ty: Type, L: Outcome,
                                       R: Outcome)
    requires Shaped(ds) && Good(ds, e) && Strip(e) == Binary(op, l, r, ty) && Supported(ds, BinaryTarget(op))
    requires LeavesFaults(ds, l, L.after) && (if op.Xor? then R.after == r else LeavesFaults(ds, r, R.after))
    requires Analyze(ds, e, false) == BinaryOutcome(ds, e, op, ty, L, R) && !R.err && L.result.Some? && R.result.Some?
    ensures LeavesFaults(ds, e, Analyze(ds, e, false).after)
  {
    hide Any, Positions, Analyze, Stumbles, Good, FoundInArgs, AdaptAll;
    if e.Full? {
      AfterFull(ds, e);
    } else {
      var inner := Binary(op, L.after, R.after, ty);
      AnyPosition(ds, Fault, Rewrap(e, inner));
      WrappedFound(ds, Flawed(Fault), e, inner);
    }
  }

  lemma {:induction false} AfterUnary(ds: Declarations, e: Expr, op: UnaryOp, sub: Expr, ty: Type, S: Outcome)
    requires Shaped(ds) && Good(ds, e) && Strip(e) == Unary(op, sub, ty) && Supported(ds, UnaryTarget(op))
    requires LeavesFaults(ds, sub, S.after)
    requires Analyze(ds, e, false) == UnaryOutcome(ds, e, op, ty, S) && !S.err && S.result.Some?
    ensures LeavesFaults(ds, e, Analyze(ds, e, false).after)
  {
    hide Any, Positions, Analyze, Stumbles, Good, FoundInArgs, AdaptAll;
    if e.Full? {
      AfterFull(ds, e);
    } else {
      var inner := Unary(op, S.after, ty);
      AnyPosition(ds, Fault, Rewrap(e, inner));
      WrappedFound(ds, Flawed(Fault), e, inner);
    }
  }

  lemma {:induction false} AfterConditional(ds: Declarations, e: Expr, c: Expr, t: Expr, f: Expr, ty: Type, T: Outcome,
                                            F: Outcome)
    requires Shaped(ds) && !Stumbles(ds, e, false) && Strip(e) == Conditional(c, t, f, ty)
    requires LeavesFaults(ds, t, T.after) && LeavesFaults(ds, f, F.after) && !F.err
    requires Analyze(ds, e, false) == ConditionalOutcome(ds, e, c, ty, T, F)
    requires Analyze(ds, e, false).result.Some? ==> Good(ds, e)
    ensures LeavesFaults(ds, e, Analyze(ds, e, false).after)
  {
    hide Any, Positions, Analyze, Stumbles, Good, FoundInArgs, AdaptAll;
    if e.Full? && Analyze(ds, e, false).result.Some? {
      AfterFull(ds, e);
    } else {
      var inner := Conditional(c, T.after, F.after, ty);
      AnyPosition(ds, Fault, Rewrap(e, inner));
      WrappedFound(ds, Flawed(Fault), e, inner);
    }
  }

  lemma {:induction false} AfterParen(ds: Declarations, e: Expr, sub: Expr)
    requires Shaped(ds) && Strip(e) == Paren(sub) && !Analyze(ds, sub, false).err && !Stumbles(ds, sub, false)
    requires LeavesFaults(ds, sub, Analyze(ds, sub, false).after)
    requires Analyze(ds, e, false) == ParenOutcome(e, Analyze(ds, sub, false))
    ensures LeavesFaults(ds, e, Analyze(ds, e, false).after)
  {
    hide Any, Positions, Analyze, Stumbles, FoundInArgs, Settled;
    var S := Analyze(ds, sub, false);
    if S.result.Some? {
      AnalyzeKeepsTotal(ds, Fault, sub);
      FlagMeansFault(ds, sub, false);
      SettledLooks(ds, S.result.value);
    }
    var inner := Paren(Kept(S));
    AnyPosition(ds, Fault, Rewrap(e, inner));
    WrappedFound(ds, Flawed(Fault), e, inner);
  }

  /** An expression that comes to nothing without an error is a conditional operator while cIf
      is not declared, in parentheses or not, and so is what is left of it. */
  lemma {:induction false} NoneWaits(ds: Declarations, e: Expr)
    requires !Analyze(ds, e, false).err && !Stumbles(ds, e, false) && Analyze(ds, e, false).result.None?
    ensures var after := Analyze(ds, e, false).after;
            && Any(ds, Wait, Positions(e)) && Any(ds, Wait, Positions(after))
            && Raw(e) && Raw(after) && !Settled(ds, after)
    decreases e
  {
    hide BinaryOutcome, UnaryOutcome, Positions, Any, Analyze, Stumbles;
    AnalyzeGood(ds, e);
    AnalyzeUnfolds(ds, e, false);
    AnyPosition(ds, Wait, e);
    AnyPosition(ds, Wait, Analyze(ds, e, false).after);
    match Strip(e)
    case Paren(sub) => NoneWaits(ds, sub);
    case _ =>
  }

  // ----- Visiting a call -----

  /** A flaw by which an operator stays. */
  predicate Hides(ds: Declarations, e: Expr) {
    Total(ds, Mask, e) || Total(ds, Wait, e)
  }

  /** A QExpr argument that the analysis is through with: settled, or waiting for cIf. */
  predicate Ready(ds: Declarations, e: Expr) {
    || Settled(ds, e)
    || (!Settled(ds, e) && Raw(e) && Any(ds, Wait, Positions(e)) && !Any(ds, Fault, Positions(e)))
  }

  ghost predicate ReadyArgs(ds: Declarations, params: seq<Param>, args: seq<Expr>) {
    forall i | 0 <= i < |args| && i < |params| && Quantum(params[i]) :: Ready(ds, args[i])
  }

  lemma {:induction false} ArgumentKept(ds: Declarations, e: Expr)
    requires Shaped(ds) && !Analyze(ds, e, false).err && !Stumbles(ds, e, false)
    ensures var kept := Kept(Analyze(ds, e, false));
            && Total(ds, Fault, kept) == Total(ds, Fault, e) && Total(ds, Wait, kept) == Total(ds, Wait, e)
            && Hides(ds, kept) == Hides(ds, e) && Ready(ds, kept)
  {
    hide Positions, Any, Shaped, Analyze, Stumbles, FoundIn, Settled, Raw;
    FlagMeansFault(ds, e, false);
    if Analyze(ds, e, false).result.Some? {
      AnalyzeKeepsTotal(ds, Fault, e);
      AnalyzeKeepsTotal(ds, Mask, e);
      AnalyzeKeepsTotal(ds, Wait, e);
    } else {
      AfterKeepsFaults(ds, e);
      NoneWaits(ds, e);
    }
  }

  /** What is expected of arguments after their analysis. */
  ghost predicate KeepArgs(ds: Declarations, params: seq<Param>, args: seq<Expr>, r: seq<Expr>) {
    && ReadyArgs(ds, params, r)
    && FoundInArgs(ds, Flawed(Fault), params, r) == FoundInArgs(ds, Flawed(Fault), params, args)
    && FoundInArgs(ds, Flawed(Wait), params, r) == FoundInArgs(ds, Flawed(Wait), params, args)
    && HiddenInArgs(ds, params, r) == HiddenInArgs(ds, params, args)
  }

  predicate HiddenInArgs(ds: Declarations, params: seq<Param>, args: seq<Expr>) {
    FoundInArgs(ds, Flawed(Mask), params, args) || FoundInArgs(ds, Flawed(Wait), params, args)
  }

  lemma {:induction false} ArgsKeepTotal(ds: Declarations, params: seq<Param>, args: seq<Expr>)
    requires Shaped(ds) && !StumblesArgs(ds, params, args, false)
    ensures var r := AnalyzeArgs(ds, params, args, false);
            if r.1 then FoundInArgs(ds, Flawed(Fault), params, args) else KeepArgs(ds, params, args, r.0)
    decreases |args|
  {
    hide Analyze, Positions, Any, Shaped, Settled, FoundIn, Stumbles, KeepArgs, Ready;
    if args != [] && params != [] {
      var o := if Quantum(params[0]) then Analyze(ds, args[0], false) else Outcome(Some(args[0]), args[0], false);
      var rest := AnalyzeArgs(ds, params[1..], args[1..], o.err);
      if o.err {
        FlagMeansFault(ds, args[0], false);
        RaisedStays(ds, params[1..], args[1..]);
      } else {
        ArgsKeepTotal(ds, params[1..], args[1..]);
        if !rest.1 {
          if Quantum(params[0]) {
            ArgumentKept(ds, args[0]);
          }
          KeepCons(ds, params, args, Kept(o), rest.0);
        }
      }
    } else {
      NothingKept(ds, params, args);
    }
  }

  lemma {:induction false} NothingKept(ds: Declarations, params: seq<Param>, args: seq<Expr>)
    requires args == [] || params == []
    ensures KeepArgs(ds, params, args, args)
  {
    hide FoundInArgs, Ready;
  }

  lemma {:induction false} KeepCons(ds: Declarations, params: seq<Param>, args: seq<Expr>, x: Expr, xs: seq<Expr>)
    requires args != [] && params != [] && KeepArgs(ds, params[1..], args[1..], xs)
    requires if Quantum(params[0]) then
               && Total(ds, Fault, x) == Total(ds, Fault, args[0]) && Total(ds, Wait, x) == Total(ds, Wait, args[0])
               && Hides(ds, x) == Hides(ds, args[0]) && Ready(ds, x)
             else x == args[0]
    ensures KeepArgs(ds, params, args, [x] + xs)
  {
    hide FoundIn, Looks, Ready;
    var r := [x] + xs;
    assert r[1..] == xs;
    forall i | 0 <= i < |r| && i < |params| && Quantum(params[i]) ensures Ready(ds, r[i]) {
      if i > 0 {
        assert r[i] == xs[i - 1] && params[i] == params[1..][i - 1];
      }
    }
  }

  lemma {:induction false} RaisedStays(ds: Declarations, params: seq<Param>, args: seq<Expr>)
    ensures AnalyzeArgs(ds, params, args, true).1
  {
  }

  /** The QExpr arguments of a call are ready. */
  ghost predicate CallReady(ds: Declarations, e: Expr) {
    e.Call? ==> ReadyArgs(ds, ParamsOf(ds, e.callee), Operands(e))
  }

  /** Some operator stays. */
  predicate Hidden(ds: Declarations, e: Expr) {
    FoundIn(ds, Flawed(Mask), e) || FoundIn(ds, Flawed(Wait), e)
  }

  /** A visit raises an error only for a fault in the call, and otherwise gets the arguments
      ready and keeps the flaws. */
  lemma {:induction false} VisitKeepsFlaws(ds: Declarations, e: Expr)
    requires Shaped(ds) && !StumblesFirst(ds, e, false)
    ensures var r := Visit(ds, e);
            if r.1 then FoundIn(ds, Flawed(Fault), e)
            else
              && CallReady(ds, r.0) && FoundIn(ds, Flawed(Fault), r.0) == FoundIn(ds, Flawed(Fault), e)
              && FoundIn(ds, Flawed(Wait), r.0) == FoundIn(ds, Flawed(Wait), e)
              && Hidden(ds, r.0) == Hidden(ds, e)
  {
    hide Shaped, FoundInArgs, AnalyzeArgs, Ready, StumblesArgs, FoundIn;
    if e.Call? {
      var params := ParamsOf(ds, e.callee);
      var v := Visit(ds, e).0;
      ArgsKeepTotal(ds, params, Operands(e));
      FoundParts(ds, Flawed(Fault), e);
      FoundParts(ds, Flawed(Wait), e);
      FoundParts(ds, Flawed(Mask), e);
      FoundParts(ds, Flawed(Fault), v);
      FoundParts(ds, Flawed(Wait), v);
      FoundParts(ds, Flawed(Mask), v);
      if Resolve(ds, e.callee).None? {
        NoParams(ds, Operands(e));
      }
      if e.isCXXOperator && e.args != [] {
        var rest := AnalyzeArgs(ds, params, e.args[1..], false).0;
        assert ([e.args[0]] + rest)[1..] == rest;
      }
    }
  }

  lemma {:induction false} NoParams(ds: Declarations, args: seq<Expr>)
    ensures AnalyzeArgs(ds, [], args, false) == (args, false)
  {
  }

  /** Settled arguments have no faults, and the flaw that hides operators exactly if they
      are operators still. */
  lemma {:induction false} SettledLooks(ds: Declarations, e: Expr)
    requires Settled(ds, e)
    ensures !Any(ds, Fault, Positions(e)) && !Any(ds, Wait, Positions(e)) && Any(ds, Mask, Positions(e)) == Raw(e)
    decreases e
  {
    hide Any, Positions;
    AnyPosition(ds, Wait, e);
    AnyPosition(ds, Fault, e);
    AnyPosition(ds, Mask, e);
    match Strip(e)
    case Paren(sub) => SettledLooks(ds, sub);
    case _ =>
  }

  // ----- The traversal -----

  /** The traversal changes nothing above the calls. */
  lemma {:induction false} HeadStays(ds: Declarations, e: Expr)
    ensures var t := Traverse(ds, e).0;
            Raw(t) == Raw(e) && TypeOf(t) == TypeOf(e) && Settled(ds, t) == Settled(ds, e)
    decreases Weight(e)
  {
    hide Traverse, TraverseAll, Weight;
    TraverseUnfolds(ds, e);
    PartsWeigh(e);
    if e.Materialize? || e.Full? || e.ToBool? || e.Cast? {
      HeadStays(ds, e.sub);
      var sub := e.sub;
      TraverseUnfolds(ds, sub);
      PartsWeigh(sub);
      if sub.Paren? {
        HeadStays(ds, sub.sub);
      }
    } else if e.Paren? {
      HeadStays(ds, e.sub);
    }
  }

  /** What the traversal establishes for one subtree. */
  ghost predicate Complete(ds: Declarations, e: Expr, t: (Expr, bool)) {
    && t.1 == FoundIn(ds, Flawed(Fault), e)
    && (!t.1 ==> FoundIn(ds, Unsettled, t.0) == FoundIn(ds, Flawed(Wait), e))
    && (!t.1 ==> FoundIn(ds, StillRaw, t.0) == Hidden(ds, e))
  }

  ghost predicate CompleteArgs(ds: Declarations, params: seq<Param>, args: seq<Expr>, t: (seq<Expr>, bool)) {
    && t.1 == FoundInArgs(ds, Flawed(Fault), params, args)
    && (!t.1 ==> FoundInArgs(ds, Unsettled, params, t.0) == FoundInArgs(ds, Flawed(Wait), params, args))
    && (!t.1 ==> FoundInArgs(ds, StillRaw, params, t.0) == HiddenInArgs(ds, params, args))
  }

  lemma {:induction false} TraverseArgsComplete(ds: Declarations, params: seq<Param>, args: seq<Expr>)
    requires Shaped(ds) && ReadyArgs(ds, params, args) && !StumblesInAny(ds, args)
    ensures CompleteArgs(ds, params, args, TraverseAll(ds, args))
    decreases WeightAll(args), 1 + |args|
  {
    hide Shaped, Traverse, Settled, FoundIn, Raw, Any, Positions, Ready, StumblesIn;
    if args != [] {
      var rest := if params == [] then [] else params[1..];
      assert ReadyArgs(ds, rest, args[1..]) by {
        assert forall i | 0 <= i < |args| - 1 && i < |rest| :: args[1..][i] == args[i + 1] && rest[i] == params[i + 1];
      }
      TraverseComplete(ds, args[0]);
      TraverseArgsComplete(ds, rest, args[1..]);
      var first := Traverse(ds, args[0]);
      var others := TraverseAll(ds, args[1..]);
      if params != [] && Quantum(params[0]) {
        assert Ready(ds, args[0]);
        ReadyLooks(ds, args[0]);
      }
      assert TraverseAll(ds, args) == ([first.0] + others.0, first.1 || others.1);
      assert ([first.0] + others.0)[1..] == others.0;
    }
  }

  /** A ready argument has no faults; it stays unsettled if it waits, and an operator if it is
      hidden or waits. */
  lemma {:induction false} ReadyLooks(ds: Declarations, e: Expr)
    requires Ready(ds, e)
    ensures var t := Traverse(ds, e).0;
            && !Any(ds, Fault, Positions(e)) && Settled(ds, t) == !Any(ds, Wait, Positions(e))
            && Raw(t) == (Any(ds, Mask, Positions(e)) || Any(ds, Wait, Positions(e)))
  {
    hide Traverse, Settled, Raw, Any, Positions;
    HeadStays(ds, e);
    if Settled(ds, e) {
      SettledLooks(ds, e);
    }
  }

  lemma {:induction false} TraverseFlag(ds: Declarations, e: Expr)
    ensures var (v, err) := Visit(ds, e);
            Traverse(ds, e).1 ==
            (err ||
             match v
             case Materialize(sub, _) => Traverse(ds, sub).1
             case Full(sub) => Traverse(ds, sub).1
             case ToBool(sub) => Traverse(ds, sub).1
             case Cast(_, sub) => Traverse(ds, sub).1
             case Paren(sub) => Traverse(ds, sub).1
             case Binary(_, l, r, _) => Traverse(ds, l).1 || Traverse(ds, r).1
             case Unary(_, sub, _) => Traverse(ds, sub).1
             case Conditional(c, t, f, _) => Traverse(ds, c).1 || Traverse(ds, t).1 || Traverse(ds, f).1
             case Call(_, args, _, _) => TraverseAll(ds, args).1
             case _ => false)
  {
    hide Visit;
  }

  lemma {:induction false} ObjectComplete(ds: Declarations, args: seq<Expr>)
    requires args != []
    ensures var t, first, rest := TraverseAll(ds, args), Traverse(ds, args[0]), TraverseAll(ds, args[1..]);
            t.0 != [] && t.0[0] == first.0 && t.0[1..] == rest.0 && t.1 == (first.1 || rest.1)
  {
    hide Traverse;
  }

  /** The traversal ends with an error exactly if the expression as it was written has a
      fault in a QExpr argument of some call, at whatever depth.  Otherwise all QExpr
      arguments are settled, those of new calls included, but for conditional operators where
      cIf is not declared; and some of them are operators still exactly if there are such, or
      some operator was hidden by more than one layer of wrapping. */
  lemma {:induction false} TraverseComplete(ds: Declarations, e: Expr)
    requires Shaped(ds) && !StumblesIn(ds, e)
    ensures Complete(ds, e, Traverse(ds, e))
    decreases Weight(e), 0
  {
    hide Shaped, Traverse, TraverseAll, Visit, Weight, FoundIn, FoundInArgs, Ready, StumblesIn, StumblesInAny,
         StumblesFirst;
    StumblesInUnfolds(ds, e);
    VisitKeepsFlaws(ds, e);
    VisitShrinks(ds, e);
    TraverseFlag(ds, e);
    TraverseUnfolds(ds, e);
    var (v, err) := Visit(ds, e);
    if !err {
      PartsWeigh(v);
      FoundParts(ds, Flawed(Fault), v);
      FoundParts(ds, Flawed(Mask), v);
      FoundParts(ds, Flawed(Wait), v);
      FoundParts(ds, Unsettled, Traverse(ds, e).0);
      FoundParts(ds, StillRaw, Traverse(ds, e).0);
      match v
      case Materialize(sub, _) => TraverseComplete(ds, sub);
      case Full(sub) => TraverseComplete(ds, sub);
      case ToBool(sub) => TraverseComplete(ds, sub);
      case Cast(_, sub) => TraverseComplete(ds, sub);
      case Paren(sub) => TraverseComplete(ds, sub);
      case Unary(_, sub, _) => TraverseComplete(ds, sub);
      case Binary(_, l, r, _) => TraverseComplete(ds, l); TraverseComplete(ds, r);
      case Conditional(c, t, f, _) => TraverseComplete(ds, c); TraverseComplete(ds, t); TraverseComplete(ds, f);
      case Call(callee, args, cxx, _) =>
        if cxx && args != [] {
          StumblesInTail(ds, args);
          ObjectComplete(ds, args);
          TraverseComplete(ds, args[0]);
        }
        TraverseArgsComplete(ds, ParamsOf(ds, callee), Operands(v));
      case _ =>
    }
  }

  lemma {:induction false} StumblesInTail(ds: Declarations, args: seq<Expr>)
    requires args != [] && !StumblesInAny(ds, args)
    ensures !StumblesIn(ds, args[0]) && !StumblesInAny(ds, args[1..])
  {
    hide StumblesIn;
  }

  /** Once cIf is declared nothing waits for it. */
  lemma {:induction false} NothingWaits(ds: Declarations, e: Expr)
    requires CIF in ds
    ensures !FoundIn(ds, Flawed(Wait), e)
    decreases e
  {
    hide FoundInArgs;
    FoundParts(ds, Flawed(Wait), e);
    match e
    case Materialize(sub, _) => NothingWaits(ds, sub);
    case Full(sub) => NothingWaits(ds, sub);
    case ToBool(sub) => NothingWaits(ds, sub);
    case Cast(_, sub) => NothingWaits(ds, sub);
    case Paren(sub) => NothingWaits(ds, sub);
    case Binary(_, l, r, _) => NothingWaits(ds, l); NothingWaits(ds, r);
    case Unary(_, sub, _) => NothingWaits(ds, sub);
    case Conditional(c, t, f, _) => NothingWaits(ds, c); NothingWaits(ds, t); NothingWaits(ds, f);
    case Call(callee, args, cxx, _) =>
      forall i | 0 <= i < |args| ensures !FoundIn(ds, Flawed(Wait), args[i]) {
        NothingWaits(ds, args[i]);
      }
      NoArgWaits(ds, ParamsOf(ds, callee), args);
      if cxx && args != [] {
        NoArgWaits(ds, ParamsOf(ds, callee), args[1..]);
      }
    case _ =>
  }

  lemma {:induction false} NoArgWaits(ds: Declarations, params: seq<Param>, args: seq<Expr>)
    requires CIF in ds && forall i | 0 <= i < |args| :: !FoundIn(ds, Flawed(Wait), args[i])
    ensures !FoundInArgs(ds, Flawed(Wait), params, args)
  {
    hide FoundIn, Positions;
    ArgsFound(ds, Flawed(Wait), params, args);
  }

  /** Then all QExpr arguments are settled, and only hidden operators stay. */
  lemma {:induction false} DeclaredComplete(ds: Declarations, e: Expr)
    requires Declared(ds)
    ensures var t := Traverse(ds, e);
            && t.1 == FoundIn(ds, Flawed(Fault), e)
            && (!t.1 ==> !FoundIn(ds, Unsettled, t.0) && FoundIn(ds, StillRaw, t.0) == FoundIn(ds, Flawed(Mask), e))
  {
    hide Traverse, FoundIn, Shaped;
    WalkNeverStumbles(ds, e);
    NothingWaits(ds, e);
    TraverseComplete(ds, e);
  }

  // ----- A second traversal changes nothing -----

  lemma {:induction false} SettledArgsStay(ds: Declarations, params: seq<Param>, args: seq<Expr>)
    requires !FoundInArgs(ds, Unsettled, params, args)
    ensures AnalyzeArgs(ds, params, args, false) == (args, false)
    decreases |args|
  {
    hide Analyze, Settled, FoundIn;
    if args != [] && params != [] {
      if Quantum(params[0]) {
        SettledStays(ds, args[0]);
      }
      SettledArgsStay(ds, params[1..], args[1..]);
      assert [args[0]] + args[1..] == args;
    }
  }

  lemma {:induction false} VisitAgain(ds: Declarations, e: Expr)
    requires !FoundIn(ds, Unsettled, e)
    ensures Visit(ds, e) == (e, false)
  {
    hide FoundInArgs, AnalyzeArgs;
    if e.Call? {
      var params := ParamsOf(ds, e.callee);
      if e.isCXXOperator && e.args != [] {
        SettledArgsStay(ds, params, e.args[1..]);
        assert [e.args[0]] + e.args[1..] == e.args;
      } else {
        SettledArgsStay(ds, params, e.args);
      }
    }
  }

  /** Where all QExpr arguments are settled, as they are after a traversal, another
      traversal changes nothing and finds no error. */
  lemma {:induction false} TraverseAgain(ds: Declarations, e: Expr)
    requires !FoundIn(ds, Unsettled, e)
    ensures Traverse(ds, e) == (e, false)
    decreases Weight(e), 0
  {
    hide Traverse, TraverseAll, Visit, FoundIn, Weight;
    VisitAgain(ds, e);
    FoundParts(ds, Unsettled, e);
    TraverseUnfolds(ds, e);
    TraverseFlag(ds, e);
    PartsWeigh(e);
    match e
    case Materialize(sub, _) => TraverseAgain(ds, sub);
    case Full(sub) => TraverseAgain(ds, sub);
    case ToBool(sub) => TraverseAgain(ds, sub);
    case Cast(_, sub) => TraverseAgain(ds, sub);
    case Paren(sub) => TraverseAgain(ds, sub);
    case Unary(_, sub, _) => TraverseAgain(ds, sub);
    case Binary(_, l, r, _) => TraverseAgain(ds, l); TraverseAgain(ds, r);
    case Conditional(c, t, f, _) => TraverseAgain(ds, c); TraverseAgain(ds, t); TraverseAgain(ds, f);
    case Call(_, args, _, _) =>
      NotFoundInCall(ds, Unsettled, e);
      TraverseAllAgain(ds, args);
    case _ =>
  }

  lemma {:induction false} TraverseAllAgain(ds: Declarations, args: seq<Expr>)
    requires forall i | 0 <= i < |args| :: !FoundIn(ds, Unsettled, args[i])
    ensures TraverseAll(ds, args) == (args, false)
    decreases WeightAll(args), 1 + |args|
  {
    hide Traverse, FoundIn;
    if args != [] {
      TraverseAgain(ds, args[0]);
      TraverseAllAgain(ds, args[1..]);
      assert [args[0]] + args[1..] == args;
    }
  }

  // ----- An operator that is missed -----

  const QEXPR := Typedef("QExpr")

  /** f(!leaf) for a parameter that is a reference, where the operator is below two layers of
      wrapping. */
  function Missed(sig: Signature, id: nat): Expr {
    Call(Direct(sig), [Materialize(Cast(QEXPR, Unary(LNot, Leaf(id, QEXPR), QEXPR)), true)], false, sig.ret)
  }

  /** It is accepted without an error and stays an operator. */
  lemma {:induction false} MissedStaysRaw(ds: Declarations, sig: Signature, id: nat)
    requires |sig.params| == 1 && Quantum(sig.params[0])
    ensures Traverse(ds, Missed(sig, id)) == (Missed(sig, id), false)
    ensures FoundIn(ds, StillRaw, Missed(sig, id)) && FoundIn(ds, Flawed(Mask), Missed(sig, id))
  {
    var e := Missed(sig, id);
    var arg := e.args[0];
    assert forall q :: FoundIn(ds, q, e) == (Looks(ds, q, arg) || FoundIn(ds, q, arg)) by {
      forall q ensures FoundIn(ds, q, e) == (Looks(ds, q, arg) || FoundIn(ds, q, arg)) {
        FoundParts(ds, q, e);
        FoundUnfolds(ds, q, sig.params, arg, arg, arg);
      }
    }
    hide FoundIn, FoundInArgs, Any, Positions, Traverse;
    MissedArgument(ds, id);
    TraverseAgain(ds, e);
  }

  lemma {:induction false} MissedArgument(ds: Declarations, id: nat)
    ensures var arg := Materialize(Cast(QEXPR, Unary(LNot, Leaf(id, QEXPR), QEXPR)), true);
            && Settled(ds, arg) && Raw(arg) && Any(ds, Mask, Positions(arg)) && !FoundIn(ds, Unsettled, arg)
  {
    var arg := Materialize(Cast(QEXPR, Unary(LNot, Leaf(id, QEXPR), QEXPR)), true);
    assert Settled(ds, arg);
    SettledLooks(ds, arg);
    assert !FoundIn(ds, Unsettled, arg.sub.sub);
  }

  /** f(b ? x : y), before cIf is declared. */
  function Undeclared(sig: Signature, b: nat, x: nat, y: nat): Expr {
    Call(Direct(sig), [Conditional(Leaf(b, Builtin(0)), Leaf(x, QEXPR), Leaf(y, QEXPR), QEXPR)], false, sig.ret)
  }

  /** It is accepted too, and stays an operator that no wrapping hides. */
  lemma {:induction false} UndeclaredStaysRaw(ds: Declarations, sig: Signature, b: nat, x: nat, y: nat)
    requires CIF !in ds && |sig.params| == 1 && Quantum(sig.params[0])
    ensures var e := Undeclared(sig, b, x, y);
            Traverse(ds, e) == (e, false) && FoundIn(ds, StillRaw, e) && !FoundIn(ds, Flawed(Mask), e)
  {
    var e := Undeclared(sig, b, x, y);
    var arg := e.args[0];
    FoundParts(ds, StillRaw, e);
    FoundParts(ds, Flawed(Mask), e);
    FoundUnfolds(ds, StillRaw, sig.params, arg, arg, arg);
    FoundUnfolds(ds, Flawed(Mask), sig.params, arg, arg, arg);
    hide FoundInArgs, Any, Positions, Traverse, Analyze, TraverseAll;
    UndeclaredArgument(ds, arg, b, x, y);
    AnalyzeArgOfOne(ds, sig.params, arg);
    assert Visit(ds, e) == (e, false);
    TraverseUnfolds(ds, e);
    TraverseFlag(ds, e);
    TraverseOne(ds, arg);
  }

  lemma {:induction false} AnalyzeArgOfOne(ds: Declarations, params: seq<Param>, arg: Expr)
    requires |params| == 1 && Quantum(params[0]) && Analyze(ds, arg, false) == Outcome(None, arg, false)
    ensures AnalyzeArgs(ds, params, [arg], false) == ([arg], false)
  {
    hide Analyze;
    var none: seq<Expr> := [];
    assert [arg][1..] == none;
    assert AnalyzeArgs(ds, params[1..], none, false) == (none, false);
    assert [arg] + none == [arg];
  }

  lemma {:induction false} TraverseOne(ds: Declarations, e: Expr)
    requires Traverse(ds, e) == (e, false)
    ensures TraverseAll(ds, [e]) == ([e], false)
  {
    hide Traverse;
    var none: seq<Expr> := [];
    assert [e][1..] == none;
    assert TraverseAll(ds, none) == (none, false);
    assert [e] + none == [e];
  }

  lemma {:induction false} UndeclaredArgument(ds: Declarations, arg: Expr, b: nat, x: nat, y: nat)
    requires CIF !in ds && arg == Conditional(Leaf(b, Builtin(0)), Leaf(x, QEXPR), Leaf(y, QEXPR), QEXPR)
    ensures Analyze(ds, arg, false) == Outcome(None, arg, false) && Traverse(ds, arg) == (arg, false)
    ensures !Any(ds, Mask, Positions(arg)) && !FoundIn(ds, Flawed(Mask), arg)
  {
    hide Any, Positions, Analyze, Traverse;
    AnalyzeUnfolds(ds, arg, false);
    AnalyzeUnfolds(ds, arg.ifTrue, false);
    AnalyzeUnfolds(ds, arg.ifFalse, false);
    AnyPosition(ds, Mask, arg);
    AnyPosition(ds, Mask, arg.ifTrue);
    AnyPosition(ds, Mask, arg.ifFalse);
    TraverseUnfolds(ds, arg);
    TraverseFlag(ds, arg);
    TraverseAgain(ds, arg.cond);
    TraverseAgain(ds, arg.ifTrue);
    TraverseAgain(ds, arg.ifFalse);
  }
}
