/** Which call each operator becomes: function, arguments and their order, said without the
    tables that the analysis goes by; and which arguments of a first call are rewritten. */
module QExprOperators {
  import opened Options
  import opened QExprSyntax
  import opened QExprMeaning
  import opened QExprRewriting
  import opened QExprTraversal

  /** `e` is the operator itself, or one layer of wrapping around it. */
  ghost predicate Around(e: Expr, inner: Expr) {
    || e == inner || e == Full(inner) || e == ToBool(inner)
    || (e.Materialize? && e == Materialize(inner, e.bound)) || (e.Cast? && e == Cast(e.castTo, inner))
  }

  /** `r` is the call in the wrapping of `e`: a reference or a full expression stays around
      it, a cast does not. */
  ghost predicate StandsIn(e: Expr, call: Expr, r: Expr) {
    && (e.Materialize? ==> r == Materialize(call, e.bound))
    && (e.Full? ==> r == Full(call))
    && (!e.Materialize? && !e.Full? ==> r == call)
  }

  /** An integer literal is passed on as an unsigned number. */
  function AsArgument(e: Expr): Expr {
    if e.IntLiteral? then Cast(UnsignedInt, e) else e
  }

  ghost predicate Calls(ds: Declarations, call: Expr, name: string, args: seq<Expr>) {
    && name in ds && call.Call? && call.callee == Direct(ds[name]) && call.ty == ds[name].ret && !call.isCXXOperator
    && |call.args| == |args| && forall i | 0 <= i < |args| :: call.args[i] == AsArgument(args[i])
  }

  lemma {:induction false} CallToCalls(ds: Declarations, name: string, args: seq<Expr>)
    requires name in ds && name != "invert"
    ensures CallTo(ds, name, args).Some? && Calls(ds, CallTo(ds, name, args).value, name, args)
  {
  }

  /** With the five functions declared: an operator is a fault exactly if it is none of
      `* + ^ >> <<` and none of `! - ~`; a conditional or parentheses never are, and a call
      is if what it calls is found and does not return a QExpr. */
  lemma {:induction false} WhatIsAFault(ds: Declarations, e: Expr, inner: Expr)
    requires Declared(ds) && Around(e, inner)
    ensures inner.Binary? ==> (Faulty(ds, e) <==> inner.bop.OtherBinary?)
    ensures inner.Unary? ==> (Faulty(ds, e) <==> inner.uop.OtherUnary?)
    ensures inner.Paren? || inner.Conditional? ==> !Faulty(ds, e)
    ensures inner.Call? ==>
              (Faulty(ds, e) <==>
               match inner.callee
               case Direct(sig) => !IsQExpr(sig.ret)
               case Unresolved(name) => name in ds && !IsQExpr(ds[name].ret)
               case Parameter(pointee) => pointee.Some? && !IsQExpr(pointee.value.ret)
               case Opaque(_) => false)
  {
  }

  /** Anything else is one if its type is not that of a QExpr, the wrapping taken into account. */
  lemma {:induction false} WhichLeavesAreFaults(ds: Declarations, e: Expr, inner: Expr)
    requires Around(e, inner) && (inner.Leaf? || inner.IntLiteral?)
    ensures Faulty(ds, e) <==>
            e.ToBool? || !IsQExpr(if e.Cast? then e.castTo else if inner.Leaf? then inner.ty else Builtin(1))
  {
    assert TypeOf(inner) == if inner.Leaf? then inner.ty else Builtin(1);
    assert e == inner || Strip(e) == inner;
    hide IsQExpr;
    assert !IsQExpr(Builtin(0));
  }

  ghost predicate Faultless(ds: Declarations, e: Expr) {
    !Any(ds, Fault, Positions(e))
  }

  lemma {:induction false} FaultlessComesToSomething(ds: Declarations, e: Expr)
    requires CIF in ds
    ensures !Analyze(ds, e, false).err <==> Faultless(ds, e)
    ensures Faultless(ds, e) ==> Analyze(ds, e, false).result.Some?
  {
    hide Analyze, Positions, Stumbles, Any;
    NeverStumbles(ds, e, false);
    FlagMeansFault(ds, e, false);
  }

  /** What A op B becomes, for the results `a` and `b` of its operands. */
  ghost predicate BinaryCall(ds: Declarations, op: BinaryOp, a: Expr, b: Expr, call: Expr) {
    match op
    case Add => Calls(ds, call, JOIN, [a, b])
    case Mul => Calls(ds, call, JOIN, [b, a])
    case Shl => Calls(ds, call, BIND, [a, b])
    case Shr => Calls(ds, call, BIND, [b, a])
    case Xor => Calls(ds, call, POWER, [b, a])
    case OtherBinary(_) => false
  }

  /** A binary operator whose operands have no fault: it is rewritten exactly if it is one
      of the five, and then to this call.  The exponent of a power is taken as it is. */
  lemma {:induction false} BinaryBecomesCall(ds: Declarations, e: Expr, op: BinaryOp, l: Expr, r: Expr, ty: Type)
      returns (call: Expr)
    requires Declared(ds) && Around(e, Binary(op, l, r, ty)) && Faultless(ds, l) && (!op.Xor? ==> Faultless(ds, r))
    ensures var o := Analyze(ds, e, false);
            if op.OtherBinary? then o.err && o.result.None?
            else
              var a, b := Analyze(ds, l, false).result, if op.Xor? then Some(r) else Analyze(ds, r, false).result;
              && a.Some? && b.Some? && BinaryCall(ds, op, a.value, b.value, call)
              && !o.err && o.result.Some? && StandsIn(e, call, o.result.value)
  {
    hide Analyze, Positions, Shaped, Any, Rewrap, CallTo, Calls;
    AnalyzeUnfolds(ds, e, false);
    FaultlessComesToSomething(ds, l);
    var L, R := Analyze(ds, l, false), Outcome(Some(r), r, false);
    if !op.Xor? {
      FaultlessComesToSomething(ds, r);
      R := Analyze(ds, r, false);
    }
    assert Analyze(ds, e, false) == BinaryOutcome(ds, e, op, ty, L, R);
    if op.OtherBinary? {
      call := e;
    } else {
      var a, b := L.result.value, R.result.value;
      var name := if op.Mul? || op.Add? then JOIN else if op.Xor? then POWER else BIND;
      var args := if op.Add? || op.Shl? then [a, b] else [b, a];
      assert name in ds && name != "invert";
      CallToCalls(ds, name, args);
      call := CallTo(ds, name, args).value;
    }
  }

  /** What `!A`, `-A` or `~A` becomes, for the result `a` of the operand: below a logical
      not, the cast to bool that is left around it goes. */
  ghost predicate UnaryCall(ds: Declarations, op: UnaryOp, a: Expr, call: Expr) {
    match op
    case LNot => Calls(ds, call, INVERT, [if a.ToBool? then a.sub else a])
    case Minus => Calls(ds, call, INVERT, [a])
    case Not => Calls(ds, call, INVERT, [a])
    case OtherUnary(_) => false
  }

  lemma {:induction false} UnaryBecomesCall(ds: Declarations, e: Expr, op: UnaryOp, sub: Expr, ty: Type)
      returns (call: Expr)
    requires Declared(ds) && Around(e, Unary(op, sub, ty)) && Faultless(ds, sub)
    ensures var o := Analyze(ds, e, false);
            if op.OtherUnary? then o.err && o.result.None?
            else
              var a := Analyze(ds, sub, false).result;
              && a.Some? && UnaryCall(ds, op, a.value, call)
              && !o.err && o.result.Some? && StandsIn(e, call, o.result.value)
  {
    hide Analyze, Positions, Shaped, Any, Rewrap, CallTo, Calls;
    AnalyzeUnfolds(ds, e, false);
    FaultlessComesToSomething(ds, sub);
    var S := Analyze(ds, sub, false);
    assert Analyze(ds, e, false) == UnaryOutcome(ds, e, op, ty, S);
    call := e;
    if !op.OtherUnary? {
      var arg := if op.LNot? && S.result.value.ToBool? then S.result.value.sub else S.result.value;
      assert INVERT in ds && INVERT != "invert";
      CallToCalls(ds, INVERT, [arg]);
      call := CallTo(ds, INVERT, [arg]).value;
    }
  }

  /** `r` is the call that the operator in `e` stands for. */
  ghost predicate BinaryDone(ds: Declarations, e: Expr, r: Expr)
    requires Strip(e).Binary?
  {
    var bo := Strip(e);
    var a := Analyze(ds, bo.lhs, false).result;
    var b := if bo.bop.Xor? then Some(bo.rhs) else Analyze(ds, bo.rhs, false).result;
    a.Some? && b.Some? && exists call :: BinaryCall(ds, bo.bop, a.value, b.value, call) && StandsIn(e, call, r)
  }

  ghost predicate UnaryDone(ds: Declarations, e: Expr, r: Expr)
    requires Strip(e).Unary?
  {
    var uo := Strip(e);
    var a := Analyze(ds, uo.sub, false).result;
    a.Some? && exists call :: UnaryCall(ds, uo.uop, a.value, call) && StandsIn(e, call, r)
  }

  lemma {:induction false} BinaryIsDone(ds: Declarations, e: Expr, err: bool)
    requires Strip(e).Binary? && !Stumbles(ds, e, err)
    ensures var o := Analyze(ds, e, err);
            && (o.err <==> err || Any(ds, Fault, Positions(e)))
            && (Declared(ds) && !o.err ==> o.result.Some? && BinaryDone(ds, e, o.result.value))
  {
    hide Analyze, Positions, Shaped, Any, BinaryCall, Faulty, Stumbles;
    FlagMeansFault(ds, e, err);
    if Declared(ds) && !Analyze(ds, e, err).err {
      var bo := Strip(e);
      AnyPosition(ds, Fault, e);
      WhatIsAFault(ds, e, bo);
      var call := BinaryBecomesCall(ds, e, bo.bop, bo.lhs, bo.rhs, bo.ty);
    }
  }

  lemma {:induction false} UnaryIsDone(ds: Declarations, e: Expr, err: bool)
    requires Strip(e).Unary? && !Stumbles(ds, e, err)
    ensures var o := Analyze(ds, e, err);
            && (o.err <==> err || Any(ds, Fault, Positions(e)))
            && (Declared(ds) && !o.err ==> o.result.Some? && UnaryDone(ds, e, o.result.value))
  {
    hide Analyze, Positions, Shaped, Any, UnaryCall, Faulty, Stumbles;
    FlagMeansFault(ds, e, err);
    if Declared(ds) && !Analyze(ds, e, err).err {
      var uo := Strip(e);
      AnyPosition(ds, Fault, e);
      WhatIsAFault(ds, e, uo);
      var call := UnaryBecomesCall(ds, e, uo.uop, uo.sub, uo.ty);
    }
  }

  /** `c ? A : B` calls qexpr::cIf on the condition as it stands. */
  lemma {:induction false} ConditionalBecomesCall(ds: Declarations, e: Expr, c: Expr, t: Expr, f: Expr, ty: Type)
      returns (call: Expr)
    requires Declared(ds) && Around(e, Conditional(c, t, f, ty)) && Faultless(ds, t) && Faultless(ds, f)
    ensures var a, b, o := Analyze(ds, t, false).result, Analyze(ds, f, false).result, Analyze(ds, e, false);
            && a.Some? && b.Some? && Calls(ds, call, CIF, [c, a.value, b.value])
            && !o.err && o.result.Some? && StandsIn(e, call, o.result.value)
  {
    hide Analyze, Positions, Shaped, Any, Rewrap, CallTo, Calls;
    AnalyzeUnfolds(ds, e, false);
    FaultlessComesToSomething(ds, t);
    FaultlessComesToSomething(ds, f);
    var args := [c, Analyze(ds, t, false).result.value, Analyze(ds, f, false).result.value];
    assert CIF in ds && CIF != "invert";
    CallToCalls(ds, CIF, args);
    call := CallTo(ds, CIF, args).value;
  }

  /** !(A + B), with the cast to bool that C++ puts around the parentheses: what is inverted
      is the parenthesised call, without the cast. */
  lemma {:induction false} NotOfSum(ds: Declarations, a: Expr, b: Expr, ty: Type, ty': Type)
      returns (sum: Expr, call: Expr)
    requires Declared(ds) && Faultless(ds, a) && Faultless(ds, b)
    ensures var o := Analyze(ds, Unary(LNot, ToBool(Paren(Binary(Add, a, b, ty))), ty'), false);
            var x, y := Analyze(ds, a, false).result, Analyze(ds, b, false).result;
            && x.Some? && y.Some? && Calls(ds, sum, JOIN, [x.value, y.value])
            && o == Outcome(Some(call), o.after, false) && Calls(ds, call, INVERT, [Paren(sum)])
  {
    hide Analyze, Positions, Shaped, Any, Calls, Faulty;
    var plus := Binary(Add, a, b, ty);
    var cast := ToBool(Paren(plus));
    sum := BinaryBecomesCall(ds, plus, Add, a, b, ty);
    AnalyzeUnfolds(ds, cast, false);
    FaultlessComesToSomething(ds, cast);
    call := UnaryBecomesCall(ds, Unary(LNot, cast, ty'), LNot, cast, ty');
  }

  // ----- First calls -----

  /** The i-th argument is one for a parameter that is a QExpr; the object of an operator
      call has no parameter. */
  ghost predicate ForQExpr(params: seq<Param>, cxx: bool, i: nat) {
    if cxx then 0 < i <= |params| && IsQExpr(params[i - 1].ty) else i < |params| && IsQExpr(params[i].ty)
  }

  ghost predicate SomeArgumentFaulty(ds: Declarations, params: seq<Param>, args: seq<Expr>, cxx: bool) {
    exists i: nat :: i < |args| && ForQExpr(params, cxx, i) && !Faultless(ds, args[i])
  }

  /** The arguments for QExprs are what their analysis returns, and the others stay. */
  ghost predicate ArgumentsDone(ds: Declarations, params: seq<Param>, args: seq<Expr>, cxx: bool, r: seq<Expr>) {
    |r| == |args| && forall i: nat | i < |args| ::
      if ForQExpr(params, cxx, i) then Analyze(ds, args[i], false).result == Some(r[i]) else r[i] == args[i]
  }

  lemma {:induction false} ArgumentsAreDone(ds: Declarations, params: seq<Param>, args: seq<Expr>)
    requires CIF in ds
    ensures var r := AnalyzeArgs(ds, params, args, false);
            && (r.1 <==> SomeArgumentFaulty(ds, params, args, false))
            && (!r.1 ==> ArgumentsDone(ds, params, args, false, r.0))
    decreases |args|
  {
    hide Analyze, Faultless, IsQExpr;
    if args != [] && params != [] {
      FaultlessComesToSomething(ds, args[0]);
      ArgumentsAreDone(ds, params[1..], args[1..]);
      ShiftedArguments(ds, params, args);
      var o := if Quantum(params[0]) then Analyze(ds, args[0], false) else Outcome(Some(args[0]), args[0], false);
      var r, rest := AnalyzeArgs(ds, params, args, false), AnalyzeArgs(ds, params[1..], args[1..], o.err);
      assert r == ([Kept(o)] + rest.0, rest.1);
      if !r.1 {
        forall i: nat | i < |args| ensures
          if ForQExpr(params, false, i) then Analyze(ds, args[i], false).result == Some(r.0[i]) else r.0[i] == args[i]
        {
          if i > 0 {
            assert args[1..][i - 1] == args[i] && r.0[i] == rest.0[i - 1];
            assert ForQExpr(params, false, i) == ForQExpr(params[1..], false, i - 1);
          }
        }
      }
    }
  }

  lemma {:induction false} ShiftedArguments(ds: Declarations, params: seq<Param>, args: seq<Expr>)
    requires args != [] && params != []
    ensures SomeArgumentFaulty(ds, params, args, false) <==>
            (IsQExpr(params[0].ty) && !Faultless(ds, args[0])) ||
            SomeArgumentFaulty(ds, params[1..], args[1..], false)
  {
    hide Faultless, IsQExpr;
    if i: nat :| i < |args| && ForQExpr(params, false, i) && !Faultless(ds, args[i]) {
      if i > 0 {
        assert args[1..][i - 1] == args[i] && ForQExpr(params[1..], false, i - 1);
      }
    }
    if i: nat :| i < |args[1..]| && ForQExpr(params[1..], false, i) && !Faultless(ds, args[1..][i]) {
      assert args[1..][i] == args[i + 1] && ForQExpr(params, false, i + 1);
    }
    if IsQExpr(params[0].ty) && !Faultless(ds, args[0]) {
      assert ForQExpr(params, false, 0);
    }
  }

  /** A first call to a function that is found: an error exactly if an argument for a QExpr has
      a fault, and otherwise these arguments, and no other, are rewritten in place. */
  lemma {:induction false} FirstCallIsDone(ds: Declarations, e: Expr, sig: Signature)
    requires CIF in ds && e.Call? && Resolve(ds, e.callee) == Some(sig)
    ensures var o := AnalyzeFirst(ds, e, false);
            && (o.err <==> SomeArgumentFaulty(ds, sig.params, e.args, e.isCXXOperator))
            && (!o.err ==>
                  && o.after.Call? && o.after == e.(args := o.after.args) && o.result == Some(o.after)
                  && ArgumentsDone(ds, sig.params, e.args, e.isCXXOperator, o.after.args))
  {
    hide Analyze, Faultless, IsQExpr, AnalyzeArgs;
    var params, args := sig.params, e.args;
    ArgumentsAreDone(ds, params, args);
    if e.isCXXOperator && args != [] {
      var tail := args[1..];
      ArgumentsAreDone(ds, params, tail);
      PastTheObject(ds, params, args);
    }
  }

  lemma {:induction false} PastTheObject(ds: Declarations, params: seq<Param>, args: seq<Expr>)
    requires args != []
    ensures SomeArgumentFaulty(ds, params, args, true) <==> SomeArgumentFaulty(ds, params, args[1..], false)
    ensures forall r | ArgumentsDone(ds, params, args[1..], false, r) ::
              ArgumentsDone(ds, params, args, true, [args[0]] + r)
  {
    hide Faultless, IsQExpr, Analyze;
    var tail := args[1..];
    if i: nat :| i < |args| && ForQExpr(params, true, i) && !Faultless(ds, args[i]) {
      assert tail[i - 1] == args[i] && ForQExpr(params, false, i - 1);
    }
    if i: nat :| i < |tail| && ForQExpr(params, false, i) && !Faultless(ds, tail[i]) {
      assert tail[i] == args[i + 1] && ForQExpr(params, true, i + 1);
    }
    forall r | ArgumentsDone(ds, params, tail, false, r) ensures ArgumentsDone(ds, params, args, true, [args[0]] + r) {
      var all := [args[0]] + r;
      forall i: nat | i < |args| ensures
        if ForQExpr(params, true, i) then Analyze(ds, args[i], false).result == Some(all[i]) else all[i] == args[i]
      {
        if i > 0 {
          assert tail[i - 1] == args[i] && all[i] == r[i - 1];
          assert ForQExpr(params, true, i) == ForQExpr(params, false, i - 1);
        }
      }
    }
  }
}
