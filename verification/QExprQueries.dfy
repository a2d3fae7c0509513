/** Looking for something in the QExpr arguments of all calls of an expression. */
module QExprQueries {
  import opened QExprSyntax
  import opened QExprMeaning
  import opened QExprRewriting

  /** What can be looked for in a QExpr argument: a flaw among the expressions that its
      analysis looks at; that it is still an operator; that an analysis of it would do
      something; a literal that the cast around it would change. */
  datatype Query = Flawed(flaw: Flaw) | StillRaw | Unsettled | Overflowing

  predicate Looks(ds: Declarations, q: Query, e: Expr) {
    match q
    case Flawed(flaw) => Any(ds, flaw, Positions(e))
    case StillRaw => Raw(e)
    case Unsettled => !Settled(ds, e)
    case Overflowing => !CastsKeep(e)
  }

  /** Some call in `e`, at any depth, has a QExpr argument that looks so. */
  predicate FoundIn(ds: Declarations, q: Query, e: Expr)
    decreases e
  {
    match e
    case Materialize(sub, _) => FoundIn(ds, q, sub)
    case Full(sub) => FoundIn(ds, q, sub)
    case ToBool(sub) => FoundIn(ds, q, sub)
    case Cast(_, sub) => FoundIn(ds, q, sub)
    case Paren(sub) => FoundIn(ds, q, sub)
    case Binary(_, l, r, _) => FoundIn(ds, q, l) || FoundIn(ds, q, r)
    case Unary(_, sub, _) => FoundIn(ds, q, sub)
    case Conditional(c, t, f, _) => FoundIn(ds, q, c) || FoundIn(ds, q, t) || FoundIn(ds, q, f)
    case Call(callee, args, cxx, _) =>
      if cxx && args != [] then FoundIn(ds, q, args[0]) || FoundInArgs(ds, q, ParamsOf(ds, callee), args[1..])
      else FoundInArgs(ds, q, ParamsOf(ds, callee), args)
    case IntLiteral(_) => false
    case Leaf(_, _) => false
  }

  predicate FoundInArgs(ds: Declarations, q: Query, params: seq<Param>, args: seq<Expr>)
    decreases args
  {
    args != [] &&
    ((params != [] && Quantum(params[0]) && Looks(ds, q, args[0])) || FoundIn(ds, q, args[0]) ||
     FoundInArgs(ds, q, if params == [] then [] else params[1..], args[1..]))
  }

  lemma {:induction false} WrappedFound(ds: Declarations, q: Query, e: Expr, inner: Expr)
    ensures FoundIn(ds, q, e) == FoundIn(ds, q, Strip(e)) && FoundIn(ds, q, Rewrap(e, inner)) == FoundIn(ds, q, inner)
  {
  }

  lemma {:induction false} FoundParts(ds: Declarations, q: Query, e: Expr)
    ensures FoundIn(ds, q, e) ==
            match e
            case Materialize(sub, _) => FoundIn(ds, q, sub)
            case Full(sub) => FoundIn(ds, q, sub)
            case ToBool(sub) => FoundIn(ds, q, sub)
            case Cast(_, sub) => FoundIn(ds, q, sub)
            case Paren(sub) => FoundIn(ds, q, sub)
            case Binary(_, l, r, _) => FoundIn(ds, q, l) || FoundIn(ds, q, r)
            case Unary(_, sub, _) => FoundIn(ds, q, sub)
            case Conditional(c, t, f, _) => FoundIn(ds, q, c) || FoundIn(ds, q, t) || FoundIn(ds, q, f)
            case Call(callee, args, cxx, _) =>
              if cxx && args != [] then FoundIn(ds, q, args[0]) || FoundInArgs(ds, q, ParamsOf(ds, callee), args[1..])
              else FoundInArgs(ds, q, ParamsOf(ds, callee), args)
            case _ => false
  {
    hide FoundInArgs;
  }

  /** Arguments for parameters that are QExprs look so, or calls inside any argument. */
  lemma {:induction false} ArgsFound(ds: Declarations, q: Query, params: seq<Param>, args: seq<Expr>)
    ensures FoundInArgs(ds, q, params, args) <==>
            exists i :: 0 <= i < |args| &&
                        ((i < |params| && Quantum(params[i]) && Looks(ds, q, args[i])) || FoundIn(ds, q, args[i]))
    decreases |args|
  {
    hide FoundIn, Looks;
    if args != [] {
      var rest, tail := if params == [] then [] else params[1..], args[1..];
      ArgsFound(ds, q, rest, tail);
      assert forall i | 0 <= i < |tail| :: tail[i] == args[i + 1] && (i < |rest| ==> rest[i] == params[i + 1]);
      if i :| 0 < i < |args| &&
              ((i < |params| && Quantum(params[i]) && Looks(ds, q, args[i])) || FoundIn(ds, q, args[i])) {
        assert tail[i - 1] == args[i] && (i < |params| ==> rest[i - 1] == params[i]);
      }
    }
  }

  lemma {:induction false} NotFoundInArgs(ds: Declarations, q: Query, params: seq<Param>, args: seq<Expr>)
    requires !FoundInArgs(ds, q, params, args)
    ensures forall i | 0 <= i < |args| :: !FoundIn(ds, q, args[i])
    decreases |args|
  {
    hide FoundIn;
    if args != [] {
      NotFoundInArgs(ds, q, if params == [] then [] else params[1..], args[1..]);
      forall i | 0 <= i < |args| ensures !FoundIn(ds, q, args[i]) {
        assert i > 0 ==> args[i] == args[1..][i - 1];
      }
    }
  }

  lemma {:induction false} NotFoundInCall(ds: Declarations, q: Query, e: Expr)
    requires e.Call? && !FoundIn(ds, q, e)
    ensures forall i | 0 <= i < |e.args| :: !FoundIn(ds, q, e.args[i])
  {
    hide FoundInArgs;
    FoundParts(ds, q, e);
    var params := ParamsOf(ds, e.callee);
    if e.isCXXOperator && e.args != [] {
      NotFoundInArgs(ds, q, params, e.args[1..]);
      forall i | 0 <= i < |e.args| ensures !FoundIn(ds, q, e.args[i]) {
        assert i > 0 ==> e.args[i] == e.args[1..][i - 1];
      }
    } else {
      NotFoundInArgs(ds, q, params, e.args);
    }
  }
}
