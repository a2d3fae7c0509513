/** AnalyzeExpr: operators on QExprs become calls.  What the rewritten expression means,
    when the error flag is raised, and what a second analysis finds. */
module QExprRewriting {
  import opened Options
  import opened QExprSyntax
  import opened QExprMeaning

  /** `result` is what AnalyzeExpr returns, `after` is what the expression that it was
      given has become in place, and `err` is the error flag. */
  datatype Outcome = Outcome(result: Option<Expr>, after: Expr, err: bool)

  /** Casts for integer literals; the case for "invert" is never met, since the names are
      qualified ones. */
  function Adapt(name: string, e: Expr): Expr {
    if e.IntLiteral? then Cast(UnsignedInt, e)
    else if name == "invert" && (e.Cast? || e.ToBool?) then e.sub
    else e
  }

  function AdaptAll(name: string, args: seq<Expr>): (r: seq<Expr>)
    ensures |r| == |args| && forall i | 0 <= i < |args| :: r[i] == Adapt(name, args[i])
  {
    seq(|args|, i requires 0 <= i < |args| => Adapt(name, args[i]))
  }

  /** GetFunctionRefForOperator. */
  function CallTo(ds: Declarations, name: string, args: seq<Expr>): Option<Expr> {
    if name in ds then Some(Call(Direct(ds[name]), AdaptAll(name, args), false, ds[name].ret)) else None
  }

  /** The call takes the place of the operator that `e` wraps; the wrapping is kept if it
      is a reference or a full expression. */
  function Built(e: Expr, left: Expr, call: Option<Expr>): Outcome {
    if call.None? then Outcome(None, left, true)
    else if e.Materialize? then Outcome(Some(Materialize(call.value, e.bound)), left, false)
    else if e.Full? then Outcome(Some(Full(call.value)), Full(call.value), false)
    else Outcome(Some(call.value), left, false)
  }

  function OptionalCall(ds: Declarations, name: Option<string>, args: seq<Expr>): Option<Expr> {
    if name.Some? then CallTo(ds, name.value, args) else None
  }

  /** The operand of a logical not, without the cast to bool that was put around it. */
  function Operand(op: UnaryOp, e: Expr): Expr {
    if op.LNot? && e.ToBool? then e.sub else e
  }

  function Kept(o: Outcome): Expr {
    if o.result.Some? then o.result.value else o.after
  }

  function BinaryOutcome(ds: Declarations, e: Expr, op: BinaryOp, ty: Type, L: Outcome, R: Outcome): Outcome {
    var left := Rewrap(e, Binary(op, L.after, R.after, ty));
    if R.err then Outcome(None, left, true)
    else if L.result.None? || R.result.None? then Built(e, left, None)
    else
      var args := if Flips(op) then [R.result.value, L.result.value] else [L.result.value, R.result.value];
      Built(e, left, OptionalCall(ds, BinaryTarget(op), args))
  }

  function UnaryOutcome(ds: Declarations, e: Expr, op: UnaryOp, ty: Type, S: Outcome): Outcome {
    var left := Rewrap(e, Unary(op, S.after, ty));
    if S.err then Outcome(None, left, true)
    else if S.result.None? then Built(e, left, None)
    else Built(e, left, OptionalCall(ds, UnaryTarget(op), [Operand(op, S.result.value)]))
  }

  function ParenOutcome(e: Expr, S: Outcome): Outcome {
    var left := Rewrap(e, Paren(Kept(S)));
    Outcome(if S.err || S.result.None? then None else Some(left), left, S.err)
  }

  /** If cIf is not declared, nothing is returned and no error is raised. */
  function ConditionalOutcome(ds: Declarations, e: Expr, c: Expr, ty: Type, T: Outcome, F: Outcome): Outcome {
    var left := Rewrap(e, Conditional(c, T.after, F.after, ty));
    if F.err then Outcome(None, left, true)
    else if CIF !in ds || T.result.None? || F.result.None? then Outcome(None, left, false)
    else Built(e, left, CallTo(ds, CIF, [c, T.result.value, F.result.value]))
  }

  /** A call inside an expression is not entered, but it must return a QExpr. */
  function CallOutcome(ds: Declarations, e: Expr, callee: Callee, err: bool): Outcome {
    var sig := Resolve(ds, callee);
    if sig.None? then Outcome(Some(e), e, err)
    else if err || !IsQExpr(sig.value.ret) then Outcome(None, e, true)
    else Outcome(Some(e), e, false)
  }

  function OtherOutcome(e: Expr, err: bool): Outcome {
    if err || !IsQExpr(TypeOf(e)) then Outcome(None, e, true) else Outcome(Some(e), e, false)
  }

  /** AnalyzeExpr where it is not the first call; the exponent of a power is not analyzed. */
  function Analyze(ds: Declarations, e: Expr, err: bool): (r: Outcome)
    ensures err ==> r.err
    ensures CIF in ds && !r.err ==> r.result.Some?
    decreases e
  {
    match Strip(e)
    case Binary(op, l, r, ty) =>
      var L := Analyze(ds, l, err);
      BinaryOutcome(ds, e, op, ty, L, if op.Xor? then Outcome(Some(r), r, L.err) else Analyze(ds, r, L.err))
    case Unary(op, sub, ty) => UnaryOutcome(ds, e, op, ty, Analyze(ds, sub, err))
    case Paren(sub) => ParenOutcome(e, Analyze(ds, sub, err))
    case Conditional(c, t, f, ty) =>
      var T := Analyze(ds, t, err);
      ConditionalOutcome(ds, e, c, ty, T, Analyze(ds, f, T.err))
    case Call(callee, _, _, _) => CallOutcome(ds, e, callee, err)
    case _ => OtherOutcome(e, err)
  }

  predicate Supported(ds: Declarations, name: Option<string>) {
    name.Some? && name.value in ds
  }

  /** Where the plugin dereferences null: cIf is not declared, and the null that a
      conditional operator came to is wrapped, or passed on to a function. */
  predicate Stumbles(ds: Declarations, e: Expr, err: bool)
    decreases e
  {
    match Strip(e)
    case Binary(op, l, r, _) =>
      var L := Analyze(ds, l, err);
      var R := if op.Xor? then Outcome(Some(r), r, L.err) else Analyze(ds, r, L.err);
      || Stumbles(ds, l, err) || (!op.Xor? && Stumbles(ds, r, L.err))
      || (!R.err && (L.result.None? || R.result.None?) && Supported(ds, BinaryTarget(op)))
    case Unary(op, sub, _) =>
      var S := Analyze(ds, sub, err);
      Stumbles(ds, sub, err) || (!S.err && S.result.None? && (op.LNot? || Supported(ds, UnaryTarget(op))))
    case Paren(sub) => Stumbles(ds, sub, err)
    case Conditional(_, t, f, _) =>
      var T := Analyze(ds, t, err);
      || Stumbles(ds, t, err) || Stumbles(ds, f, T.err)
      || (CIF !in ds && !Analyze(ds, f, T.err).err && (e.Materialize? || e.Full?))
    case _ => false
  }

  lemma {:induction false} AnalyzeUnfolds(ds: Declarations, e: Expr, err: bool)
    ensures Analyze(ds, e, err) ==
            match Strip(e)
            case Binary(op, l, r, ty) =>
              var L := Analyze(ds, l, err);
              BinaryOutcome(ds, e, op, ty, L, if op.Xor? then Outcome(Some(r), r, L.err) else Analyze(ds, r, L.err))
            case Unary(op, sub, ty) => UnaryOutcome(ds, e, op, ty, Analyze(ds, sub, err))
            case Paren(sub) => ParenOutcome(e, Analyze(ds, sub, err))
            case Conditional(c, t, f, ty) =>
              var T := Analyze(ds, t, err);
              ConditionalOutcome(ds, e, c, ty, T, Analyze(ds, f, T.err))
            case Call(callee, _, _, _) => CallOutcome(ds, e, callee, err)
            case _ => OtherOutcome(e, err)
  {
    hide BinaryOutcome, UnaryOutcome, ConditionalOutcome, ParenOutcome, CallOutcome, OtherOutcome;
  }

  lemma {:induction false} StumblesUnfolds(ds: Declarations, e: Expr, err: bool)
    ensures Stumbles(ds, e, err) ==
            match Strip(e)
            case Binary(op, l, r, _) =>
              var L := Analyze(ds, l, err);
              var R := if op.Xor? then Outcome(Some(r), r, L.err) else Analyze(ds, r, L.err);
              || Stumbles(ds, l, err) || (!op.Xor? && Stumbles(ds, r, L.err))
              || (!R.err && (L.result.None? || R.result.None?) && Supported(ds, BinaryTarget(op)))
            case Unary(op, sub, _) =>
              var S := Analyze(ds, sub, err);
              Stumbles(ds, sub, err) || (!S.err && S.result.None? && (op.LNot? || Supported(ds, UnaryTarget(op))))
            case Paren(sub) => Stumbles(ds, sub, err)
            case Conditional(_, t, f, _) =>
              var T := Analyze(ds, t, err);
              || Stumbles(ds, t, err) || Stumbles(ds, f, T.err)
              || (CIF !in ds && !Analyze(ds, f, T.err).err && (e.Materialize? || e.Full?))
            case _ => false
  {
    hide Analyze, Supported, BinaryTarget, UnaryTarget;
  }

  /** When the three operators raise the flag. */
  lemma {:induction false} BinaryFlags(ds: Declarations, e: Expr, op: BinaryOp, ty: Type, L: Outcome, R: Outcome)
    ensures var o := BinaryOutcome(ds, e, op, ty, L, R);
            && (o.err <==> R.err || L.result.None? || R.result.None? || !Supported(ds, BinaryTarget(op)))
            && (!o.err ==> o.result.Some?)
  {
    hide BinaryTarget, Rewrap, Flips, AdaptAll;
  }

  lemma {:induction false} UnaryFlags(ds: Declarations, e: Expr, op: UnaryOp, ty: Type, S: Outcome)
    ensures var o := UnaryOutcome(ds, e, op, ty, S);
            && (o.err <==> S.err || S.result.None? || !Supported(ds, UnaryTarget(op)))
            && (!o.err ==> o.result.Some?)
  {
    hide UnaryTarget, Rewrap, AdaptAll;
  }

  lemma {:induction false} ConditionalFlags(ds: Declarations, e: Expr, c: Expr, ty: Type, T: Outcome, F: Outcome)
    ensures var o := ConditionalOutcome(ds, e, c, ty, T, F);
            && o.err == F.err
            && (!o.err && CIF in ds && T.result.Some? && F.result.Some? ==> o.result.Some?)
  {
    hide Rewrap, AdaptAll;
  }

  /** Not if cIf is declared, and not without a conditional operator. */
  lemma {:induction false} StumblesOnConditionals(ds: Declarations, e: Expr, err: bool)
    requires CIF in ds || forall p | p in Positions(e) :: !Strip(p).Conditional?
    ensures !Stumbles(ds, e, err)
    ensures !Analyze(ds, e, err).err ==> Analyze(ds, e, err).result.Some?
    decreases e
  {
    hide BinaryTarget, UnaryTarget, BinaryOutcome, UnaryOutcome, ConditionalOutcome, Supported, Analyze, Stumbles;
    AnalyzeUnfolds(ds, e, err);
    StumblesUnfolds(ds, e, err);
    match Strip(e)
    case Binary(op, l, r, ty) =>
      StumblesOnConditionals(ds, l, err);
      var L := Analyze(ds, l, err);
      if op.Xor? {
        BinaryFlags(ds, e, op, ty, L, Outcome(Some(r), r, L.err));
      } else {
        StumblesOnConditionals(ds, r, L.err);
        BinaryFlags(ds, e, op, ty, L, Analyze(ds, r, L.err));
      }
    case Unary(op, sub, ty) =>
      StumblesOnConditionals(ds, sub, err);
      UnaryFlags(ds, e, op, ty, Analyze(ds, sub, err));
    case Paren(sub) => StumblesOnConditionals(ds, sub, err);
    case Conditional(c, t, f, ty) =>
      assert e in Positions(e);
      StumblesOnConditionals(ds, t, err);
      var T := Analyze(ds, t, err);
      StumblesOnConditionals(ds, f, T.err);
      ConditionalFlags(ds, e, c, ty, T, Analyze(ds, f, T.err));
    case _ =>
  }

  lemma {:induction false} NeverStumbles(ds: Declarations, e: Expr, err: bool)
    requires CIF in ds
    ensures !Stumbles(ds, e, err)
  {
    hide Stumbles;
    StumblesOnConditionals(ds, e, err);
  }

  // ----- What the analysis keeps of the meaning -----

  /** A literal is cast to a 32-bit unsigned integer, which must not change what the
      function uses it for. */
  predicate Fits(name: string, e: Expr) {
    e.IntLiteral? ==>
      if name == CIF then e.value == 0 || e.value % 0x1_0000_0000 != 0 else e.value < 0x1_0000_0000
  }

  /** Literals fit where the analysis of `e` puts a cast around them: in the exponents and
      conditions that it meets. */
  predicate CastsKeep(e: Expr)
    decreases e
  {
    match Strip(e)
    case Binary(op, l, r, _) => CastsKeep(l) && if op.Xor? then Fits(POWER, r) else CastsKeep(r)
    case Unary(_, sub, _) => CastsKeep(sub)
    case Paren(sub) => CastsKeep(sub)
    case Conditional(c, t, f, _) => Fits(CIF, c) && CastsKeep(t) && CastsKeep(f)
    case _ => true
  }

  /** A call to one of the five functions means what its operator means. */
  lemma {:induction false} CallMeaning(ds: Declarations, env: Env, name: string, args: seq<Expr>)
    requires Shaped(ds) && name in FIVE && name in ds && |args| == |ds[name].params|
    requires name == POWER || name == CIF ==> Fits(name, args[0])
    ensures CallTo(ds, name, args).Some?
    ensures var r := CallTo(ds, name, args).value;
            var t := i requires 0 <= i < |args| => TraceOf(ds, env, args[i]);
            TraceOf(ds, env, r) ==
            (if name == JOIN then t(0) + t(1)
             else if name == POWER then Power(NumberOf(ds, env, args[0]), t(1))
             else if name == BIND then t(0) + [Barrier] + t(1)
             else if name == INVERT then Inverse(t(0))
             else if NumberOf(ds, env, args[0]) != 0 then t(1) else t(2))
  {
    var adapted := AdaptAll(name, args);
    var params := ds[name].params;
    TargetIs(ds, name);
    forall i | 0 <= i < |args| ensures TraceOf(ds, env, adapted[i]) == TraceOf(ds, env, args[i]) {
      AdaptTrace(ds, env, name, args[i]);
    }
    if name == POWER || name == CIF {
      AdaptNumber(ds, env, name, args[0]);
    }
    ArgsAt(ds, env, params, adapted);
    hide TraceOf, NumberOf, ArgsOf, TargetName, Shaped, AdaptAll, Power, Inverse;
    CallUnfolds(ds, env, name, adapted);
  }

  lemma {:induction false} CallUnfolds(ds: Declarations, env: Env, name: string, args: seq<Expr>)
    requires name in ds
    ensures TraceOf(ds, env, Call(Direct(ds[name]), args, false, ds[name].ret)) ==
            CallTrace(ds, env, Direct(ds[name]), ArgsOf(ds, env, ds[name].params, args))
  {
  }

  lemma {:induction false} TargetIs(ds: Declarations, name: string)
    requires Shaped(ds) && name in FIVE && name in ds
    ensures TargetName(ds, Direct(ds[name])) == Some(name)
  {
  }

  lemma {:induction false} AdaptTrace(ds: Declarations, env: Env, name: string, e: Expr)
    ensures TraceOf(ds, env, Adapt(name, e)) == TraceOf(ds, env, e)
  {
  }

  lemma {:induction false} AdaptNumber(ds: Declarations, env: Env, name: string, e: Expr)
    requires name != "invert" && Fits(name, e)
    ensures (NumberOf(ds, env, Adapt(name, e)) == 0) == (NumberOf(ds, env, e) == 0)
    ensures name != CIF ==> NumberOf(ds, env, Adapt(name, e)) == NumberOf(ds, env, e)
  {
  }

  lemma {:induction false} ArgsAt(ds: Declarations, env: Env, params: seq<Param>, args: seq<Expr>)
    ensures forall i | 0 <= i < |args| ::
              ArgsOf(ds, env, params, args)[i] ==
              if i < |params| && Quantum(params[i]) then QuantumArg(TraceOf(ds, env, args[i]))
              else ClassicalArg(NumberOf(ds, env, args[i]))
    decreases |args|
  {
    hide TraceOf, NumberOf;
    if args != [] {
      var rest := if params == [] then [] else params[1..];
      ArgsAt(ds, env, rest, args[1..]);
      forall i | 0 < i < |args| ensures args[i] == args[1..][i - 1] && (i < |params| ==> params[i] == rest[i - 1]) {
      }
    }
  }

  /** What an outcome returns and what it leaves apply the same gates as `e`. */
  ghost predicate KeepsTrace(ds: Declarations, env: Env, e: Expr, o: Outcome) {
    && TraceOf(ds, env, o.after) == TraceOf(ds, env, e)
    && (o.result.Some? ==> TraceOf(ds, env, o.result.value) == TraceOf(ds, env, e))
  }

  lemma {:induction false} BuiltTrace(ds: Declarations, env: Env, e: Expr, left: Expr, call: Option<Expr>)
    requires TraceOf(ds, env, left) == TraceOf(ds, env, e)
    requires call.Some? ==> TraceOf(ds, env, call.value) == TraceOf(ds, env, e)
    ensures KeepsTrace(ds, env, e, Built(e, left, call))
  {
  }

  lemma {:induction false} WrappedTrace(ds: Declarations, env: Env, e: Expr, inner: Expr)
    ensures TraceOf(ds, env, e) == TraceOf(ds, env, Strip(e)) &&
            TraceOf(ds, env, Rewrap(e, inner)) == TraceOf(ds, env, inner)
  {
  }

  lemma {:induction false} BinaryKeepsTrace(ds: Declarations, env: Env, e: Expr, op: BinaryOp, l: Expr, r: Expr,
          ty: Type, L: Outcome, R: Outcome)
    requires Shaped(ds) && Strip(e) == Binary(op, l, r, ty) && KeepsTrace(ds, env, l, L) && KeepsTrace(ds, env, r, R)
    requires op.Xor? ==> R.after == r && R.result == Some(r) && Fits(POWER, r)
    ensures KeepsTrace(ds, env, e, BinaryOutcome(ds, e, op, ty, L, R))
  {
    hide TraceOf, NumberOf, OptionalCall, Built, Shaped, Fits, BinaryTarget, BinaryTrace;
    var left := Binary(op, L.after, R.after, ty);
    WrappedTrace(ds, env, e, left);
    BinaryParts(ds, env, op, l, r, ty);
    BinaryParts(ds, env, op, L.after, R.after, ty);
    assert TraceOf(ds, env, left) == TraceOf(ds, env, Strip(e)) by {
      OnlyPowersCount(env, op, TraceOf(ds, env, l), TraceOf(ds, env, r), NumberOf(ds, env, r),
                      NumberOf(ds, env, R.after));
    }
    BuiltTrace(ds, env, e, Rewrap(e, left), None);
    if !R.err && L.result.Some? && R.result.Some? {
      var a, b := L.result.value, R.result.value;
      OperatorCall(ds, env, op, a, b);
      OnlyPowersCount(env, op, TraceOf(ds, env, l), TraceOf(ds, env, r), NumberOf(ds, env, r), NumberOf(ds, env, b));
      BuiltTrace(ds, env, e, Rewrap(e, left), OptionalCall(ds, BinaryTarget(op), if Flips(op) then [b, a] else [a, b]));
    }
  }

  lemma {:induction false} BinaryParts(ds: Declarations, env: Env, op: BinaryOp, l: Expr, r: Expr, ty: Type)
    ensures TraceOf(ds, env, Binary(op, l, r, ty)) ==
            BinaryTrace(env, op, TraceOf(ds, env, l), TraceOf(ds, env, r), NumberOf(ds, env, r))
  {
    hide BinaryTrace;
  }

  lemma {:induction false} OnlyPowersCount(env: Env, op: BinaryOp, l: Trace, r: Trace, m: int, n: int)
    ensures !op.Xor? ==> BinaryTrace(env, op, l, r, m) == BinaryTrace(env, op, l, r, n)
  {
  }

  /** The call that takes the place of an operator, where there is one. */
  lemma {:induction false} OperatorCall(ds: Declarations, env: Env, op: BinaryOp, a: Expr, b: Expr)
    requires Shaped(ds) && (op.Xor? ==> Fits(POWER, b))
    ensures var call := OptionalCall(ds, BinaryTarget(op), if Flips(op) then [b, a] else [a, b]);
            call.Some? ==>
              TraceOf(ds, env, call.value) ==
              BinaryTrace(env, op, TraceOf(ds, env, a), TraceOf(ds, env, b), NumberOf(ds, env, b))
  {
    hide TraceOf, NumberOf, AdaptAll, Power, Fits;
    var name := BinaryTarget(op);
    if Supported(ds, name) {
      CallMeaning(ds, env, name.value, if Flips(op) then [b, a] else [a, b]);
    }
  }

  lemma {:induction false} UnaryKeepsTrace(ds: Declarations, env: Env, e: Expr, op: UnaryOp, sub: Expr, ty: Type,
          S: Outcome)
    requires Shaped(ds) && Strip(e) == Unary(op, sub, ty) && KeepsTrace(ds, env, sub, S)
    ensures KeepsTrace(ds, env, e, UnaryOutcome(ds, e, op, ty, S))
  {
    var left := Unary(op, S.after, ty);
    WrappedTrace(ds, env, e, left);
    assert TraceOf(ds, env, left) == TraceOf(ds, env, Strip(e));
    var name := UnaryTarget(op);
    if !S.err && S.result.Some? {
      var args := [Operand(op, S.result.value)];
      WrappedTrace(ds, env, S.result.value, sub);
      if Supported(ds, name) {
        CallMeaning(ds, env, name.value, args);
      }
      BuiltTrace(ds, env, e, Rewrap(e, left), OptionalCall(ds, name, args));
    }
  }

  lemma {:induction false} ConditionalKeepsTrace(ds: Declarations, env: Env, e: Expr, c: Expr, t: Expr, f: Expr,
          ty: Type, T: Outcome, F: Outcome)
    requires Shaped(ds) && Strip(e) == Conditional(c, t, f, ty) && KeepsTrace(ds, env, t, T) &&
             KeepsTrace(ds, env, f, F) && Fits(CIF, c)
    ensures KeepsTrace(ds, env, e, ConditionalOutcome(ds, e, c, ty, T, F))
  {
    var left := Conditional(c, T.after, F.after, ty);
    WrappedTrace(ds, env, e, left);
    assert TraceOf(ds, env, left) == TraceOf(ds, env, Strip(e));
    if !F.err && CIF in ds && T.result.Some? && F.result.Some? {
      var args := [c, T.result.value, F.result.value];
      CallMeaning(ds, env, CIF, args);
      BuiltTrace(ds, env, e, Rewrap(e, left), CallTo(ds, CIF, args));
    }
  }

  lemma {:induction false} ParenKeepsTrace(ds: Declarations, env: Env, e: Expr, sub: Expr, S: Outcome)
    requires Strip(e) == Paren(sub) && KeepsTrace(ds, env, sub, S)
    ensures KeepsTrace(ds, env, e, ParenOutcome(e, S))
  {
    WrappedTrace(ds, env, e, Paren(Kept(S)));
    assert TraceOf(ds, env, Paren(sub)) == TraceOf(ds, env, sub);
  }

  /** Whatever the analysis comes to, errors included: what it returns and what it leaves
      in the tree apply the same gates in the same order as the expression did. */
  lemma {:induction false} AnalyzeKeepsTrace(ds: Declarations, env: Env, e: Expr, err: bool)
    requires Shaped(ds) && CastsKeep(e)
    ensures KeepsTrace(ds, env, e, Analyze(ds, e, err))
    decreases e
  {
    hide TraceOf, KeepsTrace, BinaryOutcome, UnaryOutcome, ParenOutcome, ConditionalOutcome, Shaped, Fits, Analyze;
    AnalyzeUnfolds(ds, e, err);
    match Strip(e)
    case Binary(op, l, r, ty) =>
      AnalyzeKeepsTrace(ds, env, l, err);
      var L := Analyze(ds, l, err);
      if op.Xor? {
        Unchanged(ds, env, r, L.err);
        BinaryKeepsTrace(ds, env, e, op, l, r, ty, L, Outcome(Some(r), r, L.err));
      } else {
        AnalyzeKeepsTrace(ds, env, r, L.err);
        BinaryKeepsTrace(ds, env, e, op, l, r, ty, L, Analyze(ds, r, L.err));
      }
    case Unary(op, sub, ty) =>
      AnalyzeKeepsTrace(ds, env, sub, err);
      UnaryKeepsTrace(ds, env, e, op, sub, ty, Analyze(ds, sub, err));
    case Paren(sub) =>
      AnalyzeKeepsTrace(ds, env, sub, err);
      ParenKeepsTrace(ds, env, e, sub, Analyze(ds, sub, err));
    case Conditional(c, t, f, ty) =>
      AnalyzeKeepsTrace(ds, env, t, err);
      var T := Analyze(ds, t, err);
      AnalyzeKeepsTrace(ds, env, f, T.err);
      ConditionalKeepsTrace(ds, env, e, c, t, f, ty, T, Analyze(ds, f, T.err));
    case _ =>
      Unchanged(ds, env, e, err);
      LeafUnchanged(ds, env, e, Analyze(ds, e, err));
  }

  lemma {:induction false} Unchanged(ds: Declarations, env: Env, e: Expr, err: bool)
    ensures KeepsTrace(ds, env, e, Outcome(Some(e), e, err))
  {
  }

  lemma {:induction false} LeafUnchanged(ds: Declarations, env: Env, e: Expr, o: Outcome)
    requires o.after == e && (o.result.Some? ==> o.result.value == e)
    ensures KeepsTrace(ds, env, e, o)
  {
  }

  // ----- When the error flag is raised -----

  /** The expressions that the analysis of `e` looks at, `e` itself first. */
  function Positions(e: Expr): seq<Expr>
    decreases e
  {
    match Strip(e)
    case Binary(op, l, r, _) => [e] + Positions(l) + if op.Xor? then [] else Positions(r)
    case Unary(_, sub, _) => [e] + Positions(sub)
    case Paren(sub) => [e] + Positions(sub)
    case Conditional(_, t, f, _) => [e] + Positions(t) + Positions(f)
    case _ => [e]
  }

  /** The operators that stand for a function that is declared. */
  predicate AcceptsBinary(ds: Declarations, op: BinaryOp) {
    ((op.Mul? || op.Add?) && JOIN in ds) || (op.Xor? && POWER in ds) || ((op.Shr? || op.Shl?) && BIND in ds)
  }

  predicate AcceptsUnary(ds: Declarations, op: UnaryOp) {
    (op.LNot? || op.Minus? || op.Not?) && INVERT in ds
  }

  lemma {:induction false} AcceptedAreSupported(ds: Declarations, bop: BinaryOp, uop: UnaryOp)
    ensures Supported(ds, BinaryTarget(bop)) <==> AcceptsBinary(ds, bop)
    ensures Supported(ds, UnaryTarget(uop)) <==> AcceptsUnary(ds, uop)
  {
  }

  /** An unsupported operator, a call that does not return a QExpr, or anything else that
      is not a QExpr. */
  predicate Faulty(ds: Declarations, e: Expr) {
    match Strip(e)
    case Binary(op, _, _, _) => !AcceptsBinary(ds, op)
    case Unary(op, _, _) => !AcceptsUnary(ds, op)
    case Paren(_) => false
    case Conditional(_, _, _, _) => false
    case Call(callee, _, _, _) => Resolve(ds, callee).Some? && !IsQExpr(Resolve(ds, callee).value.ret)
    case _ => !IsQExpr(TypeOf(e))
  }

  /** The operator below any wrapping and parentheses. */
  predicate Raw(e: Expr)
    decreases e
  {
    match e
    case Materialize(sub, _) => Raw(sub)
    case Full(sub) => Raw(sub)
    case ToBool(sub) => Raw(sub)
    case Cast(_, sub) => Raw(sub)
    case Paren(sub) => Raw(sub)
    case Binary(_, _, _, _) => true
    case Unary(_, _, _) => true
    case Conditional(_, _, _, _) => true
    case _ => false
  }

  /** An operator that more than one layer of wrapping hides from the analysis.  The third
      flaw is a conditional operator while cIf is not declared. */
  predicate Masking(e: Expr) {
    var inner := Strip(e);
    (inner.Materialize? || inner.Full? || inner.ToBool? || inner.Cast?) && Raw(inner)
  }

  datatype Flaw = Fault | Mask | Wait

  predicate Has(ds: Declarations, flaw: Flaw, e: Expr) {
    match flaw
    case Fault => Faulty(ds, e)
    case Mask => Masking(e)
    case Wait => CIF !in ds && Strip(e).Conditional?
  }

  predicate Any(ds: Declarations, flaw: Flaw, es: seq<Expr>) {
    exists i :: 0 <= i < |es| && Has(ds, flaw, es[i])
  }

  lemma {:induction false} AnyConcat(ds: Declarations, flaw: Flaw, a: seq<Expr>, b: seq<Expr>)
    ensures Any(ds, flaw, a + b) == (Any(ds, flaw, a) || Any(ds, flaw, b))
  {
    hide Has;
    if Any(ds, flaw, a) {
      var i :| 0 <= i < |a| && Has(ds, flaw, a[i]);
      assert (a + b)[i] == a[i];
    }
    if Any(ds, flaw, b) {
      var i :| 0 <= i < |b| && Has(ds, flaw, b[i]);
      assert (a + b)[|a| + i] == b[i];
    }
  }

  lemma {:induction false} AnyOne(ds: Declarations, flaw: Flaw, e: Expr)
    ensures Any(ds, flaw, [e]) == Has(ds, flaw, e)
  {
    hide Has;
    assert [e][0] == e;
  }

  lemma {:induction false} AnyPosition(ds: Declarations, flaw: Flaw, e: Expr)
    ensures Any(ds, flaw, Positions(e)) ==
            (Has(ds, flaw, e) ||
             match Strip(e)
             case Binary(op, l, r, _) => Any(ds, flaw, Positions(l)) || (!op.Xor? && Any(ds, flaw, Positions(r)))
             case Unary(_, sub, _) => Any(ds, flaw, Positions(sub))
             case Paren(sub) => Any(ds, flaw, Positions(sub))
             case Conditional(_, t, f, _) => Any(ds, flaw, Positions(t)) || Any(ds, flaw, Positions(f))
             case _ => false)
  {
    hide Any, Has;
    AnyOne(ds, flaw, e);
    match Strip(e)
    case Binary(op, l, r, _) =>
      AnyConcat(ds, flaw, [e], Positions(l));
      AnyConcat(ds, flaw, [e] + Positions(l), if op.Xor? then [] else Positions(r));
      NoneAny(ds, flaw);
    case Unary(_, sub, _) => AnyConcat(ds, flaw, [e], Positions(sub));
    case Paren(sub) => AnyConcat(ds, flaw, [e], Positions(sub));
    case Conditional(_, t, f, _) =>
      AnyConcat(ds, flaw, [e], Positions(t));
      AnyConcat(ds, flaw, [e] + Positions(t), Positions(f));
    case _ =>
  }

  lemma {:induction false} NoneAny(ds: Declarations, flaw: Flaw)
    ensures !Any(ds, flaw, [])
  {
  }

  /** The flag ends up raised exactly if it was raised before or some position is faulty,
      however many positions there are and whatever follows the first fault. */
  lemma {:induction false} FlagMeansFault(ds: Declarations, e: Expr, err: bool)
    requires !Stumbles(ds, e, err)
    ensures Analyze(ds, e, err).err <==> err || Any(ds, Fault, Positions(e))
    decreases e
  {
    hide Any, Positions, BinaryOutcome, UnaryOutcome, ConditionalOutcome, Supported, BinaryTarget, UnaryTarget,
         Analyze, Stumbles, AcceptsBinary, AcceptsUnary;
    AnalyzeUnfolds(ds, e, err);
    StumblesUnfolds(ds, e, err);
    AnyPosition(ds, Fault, e);
    match Strip(e)
    case Binary(op, l, r, ty) =>
      AcceptedAreSupported(ds, op, LNot);
      FlagMeansFault(ds, l, err);
      var L := Analyze(ds, l, err);
      if op.Xor? {
        BinaryFlags(ds, e, op, ty, L, Outcome(Some(r), r, L.err));
      } else {
        FlagMeansFault(ds, r, L.err);
        BinaryFlags(ds, e, op, ty, L, Analyze(ds, r, L.err));
      }
    case Unary(op, sub, ty) =>
      AcceptedAreSupported(ds, Add, op);
      FlagMeansFault(ds, sub, err);
      UnaryFlags(ds, e, op, ty, Analyze(ds, sub, err));
    case Paren(sub) => FlagMeansFault(ds, sub, err);
    case Conditional(c, t, f, ty) =>
      FlagMeansFault(ds, t, err);
      var T := Analyze(ds, t, err);
      FlagMeansFault(ds, f, T.err);
      ConditionalFlags(ds, e, c, ty, T, Analyze(ds, f, T.err));
    case _ =>
  }

  // ----- A second analysis finds nothing to do -----

  /** A second analysis would accept the expression and leave it alone. */
  predicate Settled(ds: Declarations, e: Expr)
    decreases e
  {
    match Strip(e)
    case Binary(_, _, _, _) => false
    case Unary(_, _, _) => false
    case Conditional(_, _, _, _) => false
    case Paren(sub) => Settled(ds, sub)
    case Call(callee, _, _, _) => Resolve(ds, callee).None? || IsQExpr(Resolve(ds, callee).value.ret)
    case _ => IsQExpr(TypeOf(e))
  }

  lemma {:induction false} SettledStays(ds: Declarations, e: Expr)
    requires Settled(ds, e)
    ensures Analyze(ds, e, false) == Outcome(Some(e), e, false)
    decreases e
  {
    match Strip(e)
    case Paren(sub) =>
      SettledStays(ds, sub);
      RewrapStrip(e);
    case _ =>
  }

  lemma {:induction false} RewrapStrip(e: Expr)
    ensures Rewrap(e, Strip(e)) == e
  {
  }

  /** What the analysis returns without an error is settled. */
  lemma {:induction false} AnalyzeSettles(ds: Declarations, e: Expr, err: bool)
    requires Registered(ds)
    ensures var o := Analyze(ds, e, err); !o.err && o.result.Some? ==> Settled(ds, o.result.value)
    decreases e
  {
    hide BinaryOutcome, UnaryOutcome, ConditionalOutcome, Registered, Analyze;
    AnalyzeUnfolds(ds, e, err);
    match Strip(e)
    case Binary(op, l, r, ty) =>
      var L := Analyze(ds, l, err);
      BinarySettles(ds, e, op, ty, L, if op.Xor? then Outcome(Some(r), r, L.err) else Analyze(ds, r, L.err));
    case Unary(op, sub, ty) => UnarySettles(ds, e, op, ty, Analyze(ds, sub, err));
    case Conditional(c, t, f, ty) =>
      var T := Analyze(ds, t, err);
      ConditionalSettles(ds, e, c, ty, T, Analyze(ds, f, T.err));
    case Paren(sub) => AnalyzeSettles(ds, sub, err);
    case _ =>
  }

  lemma {:induction false} BinarySettles(ds: Declarations, e: Expr, op: BinaryOp, ty: Type, L: Outcome, R: Outcome)
    requires Registered(ds)
    ensures var o := BinaryOutcome(ds, e, op, ty, L, R); !o.err && o.result.Some? ==> Settled(ds, o.result.value)
  {
    hide Settled, Registered, OptionalCall;
    if !R.err && L.result.Some? && R.result.Some? {
      OperatorSettles(ds, e, Rewrap(e, Binary(op, L.after, R.after, ty)), BinaryTarget(op),
                      if Flips(op) then [R.result.value, L.result.value] else [L.result.value, R.result.value]);
    }
  }

  lemma {:induction false} UnarySettles(ds: Declarations, e: Expr, op: UnaryOp, ty: Type, S: Outcome)
    requires Registered(ds)
    ensures var o := UnaryOutcome(ds, e, op, ty, S); !o.err && o.result.Some? ==> Settled(ds, o.result.value)
  {
    hide Settled, Registered, OptionalCall;
    if !S.err && S.result.Some? {
      OperatorSettles(ds, e, Rewrap(e, Unary(op, S.after, ty)), UnaryTarget(op), [Operand(op, S.result.value)]);
    }
  }

  lemma {:induction false} ConditionalSettles(ds: Declarations, e: Expr, c: Expr, ty: Type, T: Outcome, F: Outcome)
    requires Registered(ds)
    ensures var o := ConditionalOutcome(ds, e, c, ty, T, F); !o.err && o.result.Some? ==> Settled(ds, o.result.value)
  {
    hide Settled, Registered, Built, CallTo;
    if !F.err && T.result.Some? && F.result.Some? {
      OperatorSettles(ds, e, Rewrap(e, Conditional(c, T.after, F.after, ty)), Some(CIF),
                      [c, T.result.value, F.result.value]);
    }
  }

  lemma {:induction false} OperatorSettles(ds: Declarations, e: Expr, left: Expr, name: Option<string>, args: seq<Expr>)
    requires Registered(ds)
    ensures var o := Built(e, left, OptionalCall(ds, name, args));
            !o.err && o.result.Some? ==> Settled(ds, o.result.value)
  {
  }
}
