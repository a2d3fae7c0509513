/** The visitor itself: it raises its error flag and counts return statements as it walks
    the tree.  Every method is proved to do what its specification function says. */
module QExprVisitor {
  import opened Options
  import opened QExprSyntax
  import opened QExprMeaning
  import opened QExprRewriting
  import opened QExprOperators
  import opened QExprTraversal
  import opened QExprFunctions

  datatype Function = Function(sig: Signature, body: Stmt)

  // ----- The table of declarations -----

  /** The function returns a QExpr and goes by that name, its qualified or its plain one. */
  predicate Enters(fd: Signature, key: string) {
    IsQExpr(fd.ret) && (fd.qualifiedName == key || fd.name == Some(key))
  }

  /** The first function of the group that is entered under that name. */
  ghost predicate FirstOf(group: seq<Function>, i: nat, key: string) {
    i < |group| && Enters(group[i].sig, key) && forall j | 0 <= j < i :: !Enters(group[j].sig, key)
  }

  /** What is in the table once the group is entered: what was in it; every function that
      returns a QExpr, under both its names; and under a new name the first that has it. */
  ghost predicate Entered(ds: Declarations, group: seq<Function>, r: Declarations) {
    && (forall key | key in ds :: key in r && r[key] == ds[key])
    && (forall i, key | 0 <= i < |group| && Enters(group[i].sig, key) :: key in r)
    && (forall key | key in r && key !in ds :: IsFirst(group, key, r[key]))
  }

  ghost predicate IsFirst(group: seq<Function>, key: string, fd: Signature) {
    exists i: nat :: FirstOf(group, i, key) && fd == group[i].sig
  }

  /** There is one such table. */
  lemma {:induction false} EnteredOnce(ds: Declarations, group: seq<Function>, r: Declarations, t: Declarations)
    requires Entered(ds, group, r) && Entered(ds, group, t)
    ensures r == t
  {
    hide Enters;
    EnteredWithin(ds, group, r, t);
    EnteredWithin(ds, group, t, r);
    assert r.Keys == t.Keys;
  }

  lemma {:induction false} EnteredWithin(ds: Declarations, group: seq<Function>, r: Declarations, t: Declarations)
    requires Entered(ds, group, r) && Entered(ds, group, t)
    ensures forall key | key in r :: key in t && t[key] == r[key]
  {
    hide Enters;
    forall key | key in r ensures key in t && t[key] == r[key] {
      if key !in ds {
        OneIsFirst(group, key, r[key]);
        assert key in t;
        SameFirst(group, key, r[key], t[key]);
      }
    }
  }

  lemma {:induction false} OneIsFirst(group: seq<Function>, key: string, fd: Signature)
    requires IsFirst(group, key, fd)
    ensures exists i :: 0 <= i < |group| && Enters(group[i].sig, key)
  {
  }

  lemma {:induction false} SameFirst(group: seq<Function>, key: string, fd: Signature, other: Signature)
    requires IsFirst(group, key, fd) && IsFirst(group, key, other)
    ensures fd == other
  {
    hide Enters;
    var i: nat :| FirstOf(group, i, key) && fd == group[i].sig;
    var j: nat :| FirstOf(group, j, key) && other == group[j].sig;
    assert i == j;
  }

  lemma {:induction false} BothNames(ds: Declarations, group: seq<Function>, r: Declarations)
    requires Entered(ds, group, r)
    ensures forall i | 0 <= i < |group| && IsQExpr(group[i].sig.ret) ::
              group[i].sig.qualifiedName in r && (group[i].sig.name.Some? ==> group[i].sig.name.value in r)
  {
    forall i | 0 <= i < |group| && IsQExpr(group[i].sig.ret)
      ensures group[i].sig.qualifiedName in r && (group[i].sig.name.Some? ==> group[i].sig.name.value in r) {
      assert Enters(group[i].sig, group[i].sig.qualifiedName);
      assert group[i].sig.name.Some? ==> Enters(group[i].sig, group[i].sig.name.value);
    }
  }

  lemma {:induction false} NothingEntered(ds: Declarations)
    ensures Entered(ds, [], ds)
  {
  }

  /** VisitDecl for one more function. */
  lemma {:induction false} EnterNext(ds: Declarations, group: seq<Function>, fd: Function, r: Declarations)
    requires Entered(ds, group, r)
    ensures Entered(ds, group + [fd], Register(r, fd.sig))
  {
    var more, t := group + [fd], Register(r, fd.sig);
    RegisterOne(r, fd.sig);
    hide Enters, Register, IsFirst, FirstOf;
    forall key | key in t && key !in ds ensures IsFirst(more, key, t[key]) {
      FirstStays(group, fd, key);
    }
    forall i, key | 0 <= i < |more| && Enters(more[i].sig, key) ensures key in t {
      assert i < |group| ==> more[i] == group[i];
    }
  }

  lemma {:induction false} FirstStays(group: seq<Function>, fd: Function, key: string)
    ensures forall sig | IsFirst(group, key, sig) :: IsFirst(group + [fd], key, sig)
    ensures Enters(fd.sig, key) && (forall i | 0 <= i < |group| :: !Enters(group[i].sig, key)) ==>
              IsFirst(group + [fd], key, fd.sig)
  {
    hide Enters;
    var more := group + [fd];
    assert forall j | 0 <= j < |group| :: more[j] == group[j];
    forall sig | IsFirst(group, key, sig) ensures IsFirst(more, key, sig) {
      var i: nat :| FirstOf(group, i, key) && sig == group[i].sig;
      assert FirstOf(more, i, key);
    }
    if Enters(fd.sig, key) && forall i | 0 <= i < |group| :: !Enters(group[i].sig, key) {
      assert FirstOf(more, |group|, key);
    }
  }

  lemma {:induction false} RegisterOne(ds: Declarations, fd: Signature)
    ensures forall key | Enters(fd, key) :: key in Register(ds, fd)
    ensures forall key | key in Register(ds, fd) && key !in ds :: Enters(fd, key) && Register(ds, fd)[key] == fd
  {
  }

  class QExprRewriterVisitor {
    var nameToFunctionDecl: Declarations
    var errorFound: bool
    var numReturns: nat
    var functionReturnQExpr: bool

    method GetFunctionRefForOperator(functionName: string, arguments: seq<Expr>) returns (call: Option<Expr>)
      ensures call == CallTo(nameToFunctionDecl, functionName, arguments)
      ensures call.Some? <==> functionName in nameToFunctionDecl
      ensures call.Some? && functionName != "invert" ==>
                Calls(nameToFunctionDecl, call.value, functionName, arguments)
    {
      if functionName !in nameToFunctionDecl {
        return None;
      }
      var decl := nameToFunctionDecl[functionName];
      var temporaryArguments: seq<Expr> := [];
      var i := 0;
      while i < |arguments|
        invariant 0 <= i <= |arguments| && temporaryArguments == AdaptAll(functionName, arguments[..i])
      {
        var e := arguments[i];
        if e.IntLiteral? {
          temporaryArguments := temporaryArguments + [Cast(UnsignedInt, e)];
        } else if functionName == "invert" && (e.Cast? || e.ToBool?) {
          temporaryArguments := temporaryArguments + [e.sub];
        } else {
          temporaryArguments := temporaryArguments + [e];
        }
        i := i + 1;
      }
      assert arguments[..i] == arguments;
      call := Some(Call(Direct(decl), temporaryArguments, false, decl.ret));
    }

    /** The result in the wrapping of the original, if that is to be kept. */
    method Finish(argE: Expr, left: Expr, call: Option<Expr>) returns (result: Option<Expr>, after: Expr)
      requires !errorFound
      modifies `errorFound
      ensures Outcome(result, after, errorFound) == Built(argE, left, call)
    {
      after := left;
      if call.None? {
        errorFound := true;
        return None, after;
      }
      if argE.Materialize? {
        result := Some(Materialize(call.value, argE.bound));
      } else if argE.Full? {
        after := Full(call.value);
        result := Some(after);
      } else {
        result := call;
      }
    }

    /** `after` is what `argE` has become in place. */
    method AnalyzeExpr(argE: Expr, topLevel: bool) returns (result: Option<Expr>, after: Expr)
      requires topLevel ==> argE.Call?
      requires if topLevel then !StumblesFirst(nameToFunctionDecl, argE, errorFound)
               else !Stumbles(nameToFunctionDecl, argE, errorFound)
      modifies `errorFound
      ensures Outcome(result, after, errorFound) ==
              if topLevel then AnalyzeFirst(nameToFunctionDecl, argE, old(errorFound))
              else Analyze(nameToFunctionDecl, argE, old(errorFound))
      decreases argE, 1
    {
      if topLevel {
        result, after := AnalyzeFirstCall(argE);
        return;
      }
      hide BinaryOutcome, UnaryOutcome, ConditionalOutcome, AnalyzeFirst, Analyze, Stumbles, BinaryDone, UnaryDone, Any,
           Positions, Declared;
      AnalyzeUnfolds(nameToFunctionDecl, argE, errorFound);
      StumblesUnfolds(nameToFunctionDecl, argE, errorFound);
      match Strip(argE)
      case Binary(_, _, _, _) => result, after := AnalyzeBinaryOperator(argE);
      case Unary(_, _, _) => result, after := AnalyzeUnaryOperator(argE);
      case Paren(sub) =>
        var newSub, kept := AnalyzeExpr(sub, false);
        if newSub.Some? {
          kept := newSub.value;
        }
        after := Rewrap(argE, Paren(kept));
        result := if errorFound || newSub.None? then None else Some(after);
      case Conditional(_, _, _, _) => result, after := AnalyzeConditionalOperator(argE);
      case Call(callee, _, _, _) =>
        var sig := Resolve(nameToFunctionDecl, callee);
        if sig.None? {
          return Some(argE), argE;
        }
        if !IsQExpr(sig.value.ret) {
          errorFound := true;
        }
        if errorFound {
          return None, argE;
        }
        return Some(argE), argE;
      case _ =>
        if !IsQExpr(TypeOf(argE)) {
          errorFound := true;
        }
        result, after := if errorFound then None else Some(argE), argE;
    }

    method AnalyzeBinaryOperator(argE: Expr) returns (result: Option<Expr>, after: Expr)
      requires Strip(argE).Binary? && !Stumbles(nameToFunctionDecl, argE, errorFound)
      modifies `errorFound
      ensures Outcome(result, after, errorFound) == Analyze(nameToFunctionDecl, argE, old(errorFound))
      ensures errorFound <==> old(errorFound) || Any(nameToFunctionDecl, Fault, Positions(argE))
      ensures Declared(nameToFunctionDecl) && !errorFound ==>
                result.Some? && BinaryDone(nameToFunctionDecl, argE, result.value)
      decreases argE, 0
    {
      hide Built, CallTo, Rewrap, Analyze, Stumbles, Any, Positions, BinaryDone;
      AnalyzeUnfolds(nameToFunctionDecl, argE, errorFound);
      StumblesUnfolds(nameToFunctionDecl, argE, errorFound);
      BinaryIsDone(nameToFunctionDecl, argE, errorFound);
      var bo := Strip(argE);
      var revisedLHS, lhs := AnalyzeExpr(bo.lhs, false);
      var revisedRHS, rhs := Some(bo.rhs), bo.rhs;
      if !bo.bop.Xor? {
        revisedRHS, rhs := AnalyzeExpr(bo.rhs, false);
      }
      after := Rewrap(argE, Binary(bo.bop, lhs, rhs, bo.ty));
      if errorFound {
        return None, after;
      }
      var first, second, functionName := revisedLHS, revisedRHS, "";
      match bo.bop {
        case Mul => first, second, functionName := revisedRHS, revisedLHS, JOIN;
        case Add => functionName := JOIN;
        case Xor => first, second, functionName := revisedRHS, revisedLHS, POWER;
        case Shr => first, second, functionName := revisedRHS, revisedLHS, BIND;
        case Shl => functionName := BIND;
        case OtherBinary(_) =>
      }
      var call: Option<Expr> := None;
      if functionName != "" && first.Some? && second.Some? {
        call := GetFunctionRefForOperator(functionName, [first.value, second.value]);
      }
      result, after := Finish(argE, after, call);
    }

    method AnalyzeUnaryOperator(argE: Expr) returns (result: Option<Expr>, after: Expr)
      requires Strip(argE).Unary? && !Stumbles(nameToFunctionDecl, argE, errorFound)
      modifies `errorFound
      ensures Outcome(result, after, errorFound) == Analyze(nameToFunctionDecl, argE, old(errorFound))
      ensures errorFound <==> old(errorFound) || Any(nameToFunctionDecl, Fault, Positions(argE))
      ensures Declared(nameToFunctionDecl) && !errorFound ==>
                result.Some? && UnaryDone(nameToFunctionDecl, argE, result.value)
      decreases argE, 0
    {
      hide Built, CallTo, Rewrap, Analyze, Stumbles, Any, Positions, UnaryDone;
      AnalyzeUnfolds(nameToFunctionDecl, argE, errorFound);
      StumblesUnfolds(nameToFunctionDecl, argE, errorFound);
      UnaryIsDone(nameToFunctionDecl, argE, errorFound);
      var uo := Strip(argE);
      var revised, operand := AnalyzeExpr(uo.sub, false);
      after := Rewrap(argE, Unary(uo.uop, operand, uo.ty));
      if errorFound {
        return None, after;
      }
      var call: Option<Expr> := None;
      if !uo.uop.OtherUnary? && revised.Some? {
        var argument := revised.value;
        if uo.uop.LNot? && argument.ToBool? {
          argument := argument.sub;
        }
        call := GetFunctionRefForOperator(INVERT, [argument]);
      }
      result, after := Finish(argE, after, call);
    }

    method AnalyzeConditionalOperator(argE: Expr) returns (result: Option<Expr>, after: Expr)
      requires Strip(argE).Conditional? && !Stumbles(nameToFunctionDecl, argE, errorFound)
      modifies `errorFound
      ensures Outcome(result, after, errorFound) == Analyze(nameToFunctionDecl, argE, old(errorFound))
      decreases argE, 0
    {
      hide Built, CallTo, Rewrap, Analyze, Stumbles;
      AnalyzeUnfolds(nameToFunctionDecl, argE, errorFound);
      StumblesUnfolds(nameToFunctionDecl, argE, errorFound);
      var co := Strip(argE);
      var revisedTrue, ifTrue := AnalyzeExpr(co.ifTrue, false);
      var revisedFalse, ifFalse := AnalyzeExpr(co.ifFalse, false);
      after := Rewrap(argE, Conditional(co.cond, ifTrue, ifFalse, co.ty));
      if errorFound {
        return None, after;
      }
      if CIF !in nameToFunctionDecl || revisedTrue.None? || revisedFalse.None? {
        return None, after;
      }
      var call := GetFunctionRefForOperator(CIF, [co.cond, revisedTrue.value, revisedFalse.value]);
      result, after := Finish(argE, after, call);
    }

    /** A first call: its QExpr arguments are analyzed, one after the other. */
    method AnalyzeFirstCall(e: Expr) returns (result: Option<Expr>, after: Expr)
      requires e.Call? && !StumblesFirst(nameToFunctionDecl, e, errorFound)
      modifies `errorFound
      ensures Outcome(result, after, errorFound) == AnalyzeFirst(nameToFunctionDecl, e, old(errorFound))
      decreases e, 0
    {
      hide Analyze, Stumbles, StumblesArgs;
      var sig := Resolve(nameToFunctionDecl, e.callee);
      if sig.None? {
        return Some(e), e;
      }
      var params, args := sig.value.params, e.args;
      var ceIdx, fdIdx := if e.isCXXOperator then 1 else 0, 0;
      CallArgsSplit(nameToFunctionDecl, params, args, e.isCXXOperator, errorFound);
      assert params[0..] == params && args[0..] == args;
      while ceIdx < |args| && fdIdx < |params|
        invariant |args| == |e.args| && 0 <= fdIdx <= |params| && 0 <= ceIdx
        invariant forall k | ceIdx <= k < |args| :: args[k] == e.args[k]
        invariant ceIdx <= |args| ==> !StumblesArgs(nameToFunctionDecl, params[fdIdx..], args[ceIdx..], errorFound)
        invariant CombineArgs(nameToFunctionDecl, args, params, ceIdx, fdIdx, errorFound) ==
                  AnalyzeCallArgs(nameToFunctionDecl, params, e.args, e.isCXXOperator, old(errorFound))
      {
        CombineNext(nameToFunctionDecl, args, params, ceIdx, fdIdx, errorFound);
        StumblesNext(nameToFunctionDecl, args, params, ceIdx, fdIdx, errorFound);
        if Quantum(params[fdIdx]) {
          var newArg, kept := AnalyzeExpr(args[ceIdx], false);
          if newArg.Some? {
            kept := newArg.value;
          }
          args := args[ceIdx := kept];
        } else {
          assert args[ceIdx := args[ceIdx]] == args;
        }
        ceIdx, fdIdx := ceIdx + 1, fdIdx + 1;
      }
      CombineEnds(nameToFunctionDecl, args, params, ceIdx, fdIdx, errorFound);
      after := e.(args := args);
      result := if errorFound then None else Some(after);
    }

    // ----- The walk -----

    /** VisitStmt for an expression: the flag is put aside during the visit. */
    method VisitExpr(e: Expr) returns (r: Expr)
      requires !StumblesFirst(nameToFunctionDecl, e, false)
      modifies `errorFound
      ensures r == Visit(nameToFunctionDecl, e).0 && errorFound == (old(errorFound) || Visit(nameToFunctionDecl, e).1)
    {
      var oldErrorFound := errorFound;
      errorFound := false;
      r := e;
      if e.Call? {
        var result;
        result, r := AnalyzeExpr(e, true);
      }
      errorFound := oldErrorFound || errorFound;
    }

    /** VisitStmt for a return statement. */
    method VisitReturn(e: Expr) returns (r: Expr)
      requires functionReturnQExpr ==> !Stumbles(nameToFunctionDecl, e, false)
      modifies `errorFound, `numReturns
      ensures r == ReturnValue(nameToFunctionDecl, functionReturnQExpr, e).0
      ensures errorFound == (old(errorFound) || ReturnValue(nameToFunctionDecl, functionReturnQExpr, e).1)
      ensures numReturns == old(numReturns) + if functionReturnQExpr then 1 else 0
    {
      var oldErrorFound := errorFound;
      errorFound := false;
      r := e;
      if functionReturnQExpr {
        numReturns := numReturns + 1;
        var newRetVal, kept := AnalyzeExpr(e, false);
        r := if newRetVal.Some? then newRetVal.value else kept;
      }
      errorFound := oldErrorFound || errorFound;
    }

    /** The children are those that the node has after it was visited. */
    method TraverseExpr(e: Expr) returns (r: Expr)
      requires !StumblesIn(nameToFunctionDecl, e)
      modifies `errorFound
      ensures r == Traverse(nameToFunctionDecl, e).0 &&
              errorFound == (old(errorFound) || Traverse(nameToFunctionDecl, e).1)
      decreases Weight(e), 0
    {
      hide Visit, Weight, WeightAll, StumblesFirst, StumblesIn;
      StumblesInUnfolds(nameToFunctionDecl, e);
      VisitShrinks(nameToFunctionDecl, e);
      var v := VisitExpr(e);
      PartsWeigh(v);
      match v
      case Materialize(sub, bound) =>
        var s := TraverseExpr(sub);
        r := Materialize(s, bound);
      case Full(sub) =>
        var s := TraverseExpr(sub);
        r := Full(s);
      case ToBool(sub) =>
        var s := TraverseExpr(sub);
        r := ToBool(s);
      case Cast(ty, sub) =>
        var s := TraverseExpr(sub);
        r := Cast(ty, s);
      case Paren(sub) =>
        var s := TraverseExpr(sub);
        r := Paren(s);
      case Binary(op, lhs, rhs, ty) =>
        var a := TraverseExpr(lhs);
        var b := TraverseExpr(rhs);
        r := Binary(op, a, b, ty);
      case Unary(op, sub, ty) =>
        var s := TraverseExpr(sub);
        r := Unary(op, s, ty);
      case Conditional(c, t, f, ty) =>
        var a := TraverseExpr(c);
        var b := TraverseExpr(t);
        var d := TraverseExpr(f);
        r := Conditional(a, b, d, ty);
      case Call(callee, args, cxx, ty) =>
        var s := TraverseExprs(args);
        r := Call(callee, s, cxx, ty);
      case _ => r := v;
    }

    method TraverseExprs(args: seq<Expr>) returns (r: seq<Expr>)
      requires !StumblesInAny(nameToFunctionDecl, args)
      modifies `errorFound
      ensures r == TraverseAll(nameToFunctionDecl, args).0 &&
              errorFound == (old(errorFound) || TraverseAll(nameToFunctionDecl, args).1)
      decreases WeightAll(args), 1 + |args|
    {
      hide Traverse, Weight, StumblesIn;
      if args == [] {
        return [];
      }
      var first := TraverseExpr(args[0]);
      var rest := TraverseExprs(args[1..]);
      r := [first] + rest;
    }

    method TraverseBody(s: Stmt) returns (r: Stmt)
      requires !StumblesInBody(nameToFunctionDecl, functionReturnQExpr, s)
      modifies `errorFound, `numReturns
      ensures var t := TraverseStmt(nameToFunctionDecl, functionReturnQExpr, s);
              r == t.0 && errorFound == (old(errorFound) || t.1)
      ensures numReturns == old(numReturns) + if functionReturnQExpr then Returns(s) else 0
      decreases s
    {
      hide Traverse, Stumbles, StumblesIn;
      match s
      case Return(e) =>
        var v := VisitReturn(e);
        var t := TraverseExpr(v);
        r := Return(t);
      case Expression(e) =>
        var t := TraverseExpr(e);
        r := Expression(t);
      case Block(stmts) =>
        var t := TraverseBlock(stmts);
        r := Block(t);
    }

    method TraverseBlock(stmts: seq<Stmt>) returns (r: seq<Stmt>)
      requires !StumblesInBlock(nameToFunctionDecl, functionReturnQExpr, stmts)
      modifies `errorFound, `numReturns
      ensures var t := TraverseStmts(nameToFunctionDecl, functionReturnQExpr, stmts);
              r == t.0 && errorFound == (old(errorFound) || t.1)
      ensures numReturns == old(numReturns) + if functionReturnQExpr then ReturnsIn(stmts) else 0
      decreases stmts
    {
      hide TraverseStmt, Returns, StumblesInBody;
      if stmts == [] {
        return [];
      }
      var first := TraverseBody(stmts[0]);
      var rest := TraverseBlock(stmts[1..]);
      r := [first] + rest;
    }

    /** All the declarations of the group are entered first; then every body is rewritten.
        `reported` says which functions are told off for more than one return. */
    method HandleTopLevelDecl(group: seq<Function>) returns (rewritten: seq<Function>, reported: seq<bool>)
      requires forall table | Entered(nameToFunctionDecl, group, table) :: NoneStumbles(table, group)
      modifies this
      ensures Entered(old(nameToFunctionDecl), group, nameToFunctionDecl)
      ensures forall i | 0 <= i < |group| && IsQExpr(group[i].sig.ret) ::
                && group[i].sig.qualifiedName in nameToFunctionDecl
                && (group[i].sig.name.Some? ==> group[i].sig.name.value in nameToFunctionDecl)
      ensures group != [] ==> !functionReturnQExpr
      ensures |rewritten| == |reported| == |group|
      ensures forall i | 0 <= i < |group| ::
                var quantum := IsQExpr(group[i].sig.ret);
                && rewritten[i] == group[i].(body := TraverseStmt(nameToFunctionDecl, quantum, group[i].body).0)
                && (reported[i] <==> quantum && Returns(group[i].body) > 1)
      ensures errorFound <==>
              old(errorFound) ||
              exists i :: 0 <= i < |group| &&
                TraverseStmt(nameToFunctionDecl, IsQExpr(group[i].sig.ret), group[i].body).1
    {
      hide TraverseStmt, Returns, IsQExpr, StumblesInBody, Entered;
      EnterAll(group);
      BothNames(old(nameToFunctionDecl), group, nameToFunctionDecl);
      ghost var table := nameToFunctionDecl;
      assert NoneStumbles(table, group);
      rewritten, reported := [], [];
      var i := 0;
      while i < |group|
        invariant 0 <= i <= |group| && |rewritten| == |reported| == i
        invariant nameToFunctionDecl == table
        invariant i > 0 ==> !functionReturnQExpr
        invariant forall k | 0 <= k < i ::
                    var quantum := IsQExpr(group[k].sig.ret);
                    && rewritten[k] == group[k].(body := TraverseStmt(table, quantum, group[k].body).0)
                    && (reported[k] <==> quantum && Returns(group[k].body) > 1)
        invariant errorFound <==>
                  old(errorFound) ||
                  exists k :: 0 <= k < i && TraverseStmt(table, IsQExpr(group[k].sig.ret), group[k].body).1
      {
        functionReturnQExpr := IsQExpr(group[i].sig.ret);
        numReturns := 0;
        var body := TraverseBody(group[i].body);
        rewritten := rewritten + [group[i].(body := body)];
        reported := reported + [numReturns > 1];
        functionReturnQExpr := false;
        i := i + 1;
      }
    }

    /** The finder of declarations, run over the group. */
    method EnterAll(group: seq<Function>)
      modifies `nameToFunctionDecl
      ensures Entered(old(nameToFunctionDecl), group, nameToFunctionDecl)
    {
      hide Register, Entered;
      NothingEntered(nameToFunctionDecl);
      var i := 0;
      assert group[..0] == [];
      while i < |group|
        invariant 0 <= i <= |group| && Entered(old(nameToFunctionDecl), group[..i], nameToFunctionDecl)
      {
        EnterNext(old(nameToFunctionDecl), group[..i], group[i], nameToFunctionDecl);
        assert group[..i] + [group[i]] == group[..i + 1];
        nameToFunctionDecl := Register(nameToFunctionDecl, group[i].sig);
        i := i + 1;
      }
      assert group[..i] == group;
    }
  }

  /** No body of the group makes the plugin dereference null. */
  predicate NoneStumbles(ds: Declarations, group: seq<Function>) {
    forall i | 0 <= i < |group| :: !StumblesInBody(ds, IsQExpr(group[i].sig.ret), group[i].body)
  }

  /** The arguments from `ce` on are still to be analyzed. */
  function CombineArgs(ds: Declarations, args: seq<Expr>, params: seq<Param>, ce: nat, fd: nat,
          err: bool): (seq<Expr>, bool)
    requires fd <= |params|
  {
    if ce > |args| then (args, err)
    else
      var rest := AnalyzeArgs(ds, params[fd..], args[ce..], err);
      (args[..ce] + rest.0, rest.1)
  }

  lemma {:induction false} CallArgsSplit(ds: Declarations, params: seq<Param>, args: seq<Expr>, cxx: bool, err: bool)
    ensures CombineArgs(ds, args, params, if cxx then 1 else 0, 0, err) == AnalyzeCallArgs(ds, params, args, cxx, err)
  {
    hide AnalyzeArgs;
    assert params[0..] == params && args[0..] == args;
    if cxx && args != [] {
      assert args[..1] == [args[0]];
    } else if cxx {
      AnalyzeNone(ds, params, err);
    } else {
      var rest := AnalyzeArgs(ds, params, args, err);
      assert args[..0] + rest.0 == rest.0;
    }
  }

  lemma {:induction false} AnalyzeNone(ds: Declarations, params: seq<Param>, err: bool)
    ensures AnalyzeArgs(ds, params, [], err) == ([], err)
  {
  }

  lemma {:induction false} CombineNext(ds: Declarations, args: seq<Expr>, params: seq<Param>, ce: nat, fd: nat,
          err: bool)
    requires ce < |args| && fd < |params|
    ensures var o := if Quantum(params[fd]) then Analyze(ds, args[ce], err) else Outcome(Some(args[ce]), args[ce], err);
            CombineArgs(ds, args, params, ce, fd, err) ==
              CombineArgs(ds, args[ce := Kept(o)], params, ce + 1, fd + 1, o.err)
  {
    hide Analyze;
    var o := if Quantum(params[fd]) then Analyze(ds, args[ce], err) else Outcome(Some(args[ce]), args[ce], err);
    assert params[fd..][1..] == params[fd + 1..] && args[ce..][1..] == args[ce + 1..] == args[ce := Kept(o)][ce + 1..];
    var rest := AnalyzeArgs(ds, params[fd + 1..], args[ce + 1..], o.err).0;
    assert args[..ce] + ([Kept(o)] + rest) == args[ce := Kept(o)][..ce + 1] + rest;
  }

  lemma {:induction false} StumblesNext(ds: Declarations, args: seq<Expr>, params: seq<Param>, ce: nat, fd: nat,
                                        err: bool)
    requires ce < |args| && fd < |params| && !StumblesArgs(ds, params[fd..], args[ce..], err)
    ensures Quantum(params[fd]) ==> !Stumbles(ds, args[ce], err)
    ensures var o := if Quantum(params[fd]) then Analyze(ds, args[ce], err) else Outcome(Some(args[ce]), args[ce], err);
            !StumblesArgs(ds, params[fd + 1..], args[ce := Kept(o)][ce + 1..], o.err)
  {
    hide Analyze, Stumbles;
    var o := if Quantum(params[fd]) then Analyze(ds, args[ce], err) else Outcome(Some(args[ce]), args[ce], err);
    assert params[fd..][1..] == params[fd + 1..] && args[ce..][1..] == args[ce := Kept(o)][ce + 1..];
  }

  lemma {:induction false} CombineEnds(ds: Declarations, args: seq<Expr>, params: seq<Param>, ce: nat, fd: nat,
          err: bool)
    requires fd <= |params| && (ce >= |args| || fd == |params|)
    ensures CombineArgs(ds, args, params, ce, fd, err) == (args, err)
  {
    if ce <= |args| {
      assert args[..ce] + args[ce..] == args;
    }
  }
}
