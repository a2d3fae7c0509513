/** The part of the Clang syntax tree that the QExpr rewriter looks at. */
module QExprSyntax {
  import opened Options

  /** Elaborated is one layer of sugar around the type that it names. */
  datatype Type = Typedef(name: string) | Elaborated(named: Type) | UnsignedInt | Builtin(code: nat)
  datatype Param = Param(byReference: bool, ty: Type)
  datatype Signature = Signature(qualifiedName: string, name: Option<string>, params: seq<Param>, ret: Type)

  /** NameToFunctionDecl: the functions that return a QExpr, under both their names. */
  type Declarations = map<string, Signature>

  /** What getDirectCallee and getCalleeDecl find: a function; a name that is looked up
      again; a parameter that is a pointer to a function (or to something else); nothing
      of use. */
  datatype Callee =
    | Direct(sig: Signature) | Unresolved(name: string) | Parameter(pointee: Option<Signature>) | Opaque(id: nat)

  datatype BinaryOp = Mul | Add | Xor | Shr | Shl | OtherBinary(code: nat)
  datatype UnaryOp = LNot | Minus | Not | OtherUnary(code: nat)

  /** Materialize, Full, ToBool and Cast are the nodes that AnalyzeExpr looks through;
      ToBool and Cast are implicit casts, ToBool the one from an integer to bool. */
  datatype Expr =
    | Materialize(sub: Expr, bound: bool)
    | Full(sub: Expr)
    | ToBool(sub: Expr)
    | Cast(castTo: Type, sub: Expr)
    | Paren(sub: Expr)
    | Binary(bop: BinaryOp, lhs: Expr, rhs: Expr, ty: Type)
    | Unary(uop: UnaryOp, sub: Expr, ty: Type)
    | Conditional(cond: Expr, ifTrue: Expr, ifFalse: Expr, ty: Type)
    | Call(callee: Callee, args: seq<Expr>, isCXXOperator: bool, ty: Type)
    | IntLiteral(value: nat)
    | Leaf(id: nat, ty: Type)

  predicate IsQExpr(t: Type): (r: bool)
    ensures r <==> t == Typedef("QExpr") || t == Elaborated(Typedef("QExpr"))
  {
    (if t.Elaborated? then t.named else t) == Typedef("QExpr")
  }

  /** The type of an expression; a bool or an int is some builtin type. */
  function TypeOf(e: Expr): Type {
    match e
    case Materialize(sub, _) => TypeOf(sub)
    case Full(sub) => TypeOf(sub)
    case ToBool(_) => Builtin(0)
    case Cast(ty, _) => ty
    case Paren(sub) => TypeOf(sub)
    case Binary(_, _, _, ty) => ty
    case Unary(_, _, ty) => ty
    case Conditional(_, _, _, ty) => ty
    case Call(_, _, _, ty) => ty
    case IntLiteral(_) => Builtin(1)
    case Leaf(_, ty) => ty
  }

  /** One layer of wrapping is looked through, no more. */
  function Strip(e: Expr): (r: Expr)
    ensures r == e || r < e
  {
    if e.Materialize? || e.Full? || e.ToBool? || e.Cast? then e.sub else e
  }

  /** The wrapping of `e` around another expression. */
  function Rewrap(e: Expr, inner: Expr): Expr {
    match e
    case Materialize(_, bound) => Materialize(inner, bound)
    case Full(_) => Full(inner)
    case ToBool(_) => ToBool(inner)
    case Cast(ty, _) => Cast(ty, inner)
    case _ => inner
  }

  /** The signature that a call is checked against, if one is found. */
  function Resolve(ds: Declarations, callee: Callee): Option<Signature> {
    match callee
    case Direct(sig) => Some(sig)
    case Unresolved(name) => if name in ds then Some(ds[name]) else None
    case Parameter(pointee) => pointee
    case Opaque(_) => None
  }

  // ----- The functions that the operators stand for -----

  const JOIN := "qexpr::join"
  const POWER := "qexpr::power"
  const BIND := "qexpr::bind"
  const INVERT := "qexpr::invert"
  const CIF := "qexpr::cIf"

  function BinaryTarget(op: BinaryOp): Option<string> {
    match op
    case Mul => Some(JOIN)
    case Add => Some(JOIN)
    case Xor => Some(POWER)
    case Shr => Some(BIND)
    case Shl => Some(BIND)
    case OtherBinary(_) => None
  }

  /** The operators whose right operand comes first in the call. */
  predicate Flips(op: BinaryOp) {
    op.Mul? || op.Xor? || op.Shr?
  }

  function UnaryTarget(op: UnaryOp): Option<string> {
    match op
    case LNot => Some(INVERT)
    case Minus => Some(INVERT)
    case Not => Some(INVERT)
    case OtherUnary(_) => None
  }

  /** What the finder of declarations keeps: an entry goes by the qualified or the plain
      name of its function, and the function returns a QExpr. */
  ghost predicate Registered(ds: Declarations) {
    forall k | k in ds :: IsQExpr(ds[k].ret) && (ds[k].qualifiedName == k || ds[k].name == Some(k))
  }

  /** VisitDecl of the finder: a name that is taken is not overwritten. */
  function Register(ds: Declarations, fd: Signature): (r: Declarations)
    ensures Registered(ds) ==> Registered(r)
    ensures forall k | k in ds :: k in r && r[k] == ds[k]
    ensures IsQExpr(fd.ret) ==> fd.qualifiedName in r && (fd.name.Some? ==> fd.name.value in r)
    ensures !IsQExpr(fd.ret) ==> r == ds
  {
    if !IsQExpr(fd.ret) then ds
    else
      var qualified := if fd.qualifiedName in ds then ds else ds[fd.qualifiedName := fd];
      if fd.name.None? || fd.name.value in qualified then qualified else qualified[fd.name.value := fd]
  }

  predicate Quantum(p: Param) {
    IsQExpr(p.ty)
  }

  const FIVE := {JOIN, POWER, BIND, INVERT, CIF}

  /** Those of the five functions that are declared are as their users expect them. */
  ghost predicate Shaped(ds: Declarations) {
    && Registered(ds)
    && (forall k | k in {JOIN, BIND} && k in ds ::
          |ds[k].params| == 2 && Quantum(ds[k].params[0]) && Quantum(ds[k].params[1]))
    && (POWER in ds ==> |ds[POWER].params| == 2 && !Quantum(ds[POWER].params[0]) && Quantum(ds[POWER].params[1]))
    && (INVERT in ds ==> |ds[INVERT].params| == 1 && Quantum(ds[INVERT].params[0]))
    && (CIF in ds ==>
          && |ds[CIF].params| == 3 && !Quantum(ds[CIF].params[0])
          && Quantum(ds[CIF].params[1]) && Quantum(ds[CIF].params[2]))
    && (forall k | k in FIVE && k in ds :: ds[k].qualifiedName == k)
  }

  /** All of them are declared. */
  ghost predicate Declared(ds: Declarations) {
    Shaped(ds) && FIVE <= ds.Keys
  }
}
