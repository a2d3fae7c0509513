/** What a QExpr does: the gates it applies, in the order of time.  The meaning is given
    to operators and to calls alike, so that the two can be compared. */
module QExprMeaning {
  import opened Options
  import opened QExprSyntax

  datatype Event = Gate(id: nat, inverted: bool) | Barrier
  type Trace = seq<Event>
  datatype Arg = QuantumArg(trace: Trace) | ClassicalArg(number: int)

  /** Everything that the tree does not say: the leaves, functions other than the five,
      and arithmetic. */
  datatype Env = Env(
    leafTrace: nat -> Trace,
    leafNumber: nat -> int,
    callTrace: (Callee, seq<Arg>) -> Trace,
    callNumber: (Callee, seq<Arg>) -> int,
    binaryTrace: (BinaryOp, Trace, Trace) -> Trace,
    binaryNumber: (BinaryOp, int, int) -> int,
    unaryTrace: (UnaryOp, Trace) -> Trace,
    unaryNumber: (UnaryOp, int) -> int,
    convert: (Type, int) -> int)

  // ----- Traces -----

  function Undo(e: Event): Event {
    match e
    case Gate(id, inverted) => Gate(id, !inverted)
    case Barrier => Barrier
  }

  /** Back in time, every gate undone. */
  function Inverse(t: Trace): Trace {
    if t == [] then [] else Inverse(t[1..]) + [Undo(t[0])]
  }

  function Repeat(n: nat, t: Trace): Trace {
    if n == 0 then [] else t + Repeat(n - 1, t)
  }

  function Power(n: int, t: Trace): Trace {
    if n >= 0 then Repeat(n, t) else Repeat(-n, Inverse(t))
  }

  /** The five functions. */
  function Combine(name: string, args: seq<Arg>): Option<Trace> {
    if |args| == 2 && args[0].QuantumArg? && args[1].QuantumArg? then
      if name == JOIN then Some(args[0].trace + args[1].trace)
      else if name == BIND then Some(args[0].trace + [Barrier] + args[1].trace)
      else None
    else if |args| == 2 && args[0].ClassicalArg? && args[1].QuantumArg? && name == POWER then
      Some(Power(args[0].number, args[1].trace))
    else if |args| == 1 && args[0].QuantumArg? && name == INVERT then
      Some(Inverse(args[0].trace))
    else if |args| == 3 && args[0].ClassicalArg? && args[1].QuantumArg? && args[2].QuantumArg? && name == CIF then
      Some(if args[0].number != 0 then args[1].trace else args[2].trace)
    else None
  }

  /** The name under which a callee is one of the five. */
  function TargetName(ds: Declarations, callee: Callee): Option<string> {
    var sig := Resolve(ds, callee);
    if JOIN in ds && sig == Some(ds[JOIN]) then Some(JOIN)
    else if POWER in ds && sig == Some(ds[POWER]) then Some(POWER)
    else if BIND in ds && sig == Some(ds[BIND]) then Some(BIND)
    else if INVERT in ds && sig == Some(ds[INVERT]) then Some(INVERT)
    else if CIF in ds && sig == Some(ds[CIF]) then Some(CIF)
    else None
  }

  function Convert(env: Env, ty: Type, n: int): int {
    if ty == UnsignedInt then n % 0x1_0000_0000 else env.convert(ty, n)
  }

  // ----- The meaning of an expression, as a QExpr and as a number -----

  /** `A * B` is the product of operators: B comes first.  `A + B` is in the order of
      time, and so are the two forms of binding, which keep a barrier. */
  function BinaryTrace(env: Env, op: BinaryOp, l: Trace, r: Trace, n: int): Trace {
    match op
    case Mul => r + l
    case Add => l + r
    case Xor => Power(n, l)
    case Shr => r + [Barrier] + l
    case Shl => l + [Barrier] + r
    case OtherBinary(_) => env.binaryTrace(op, l, r)
  }

  function UnaryTrace(env: Env, op: UnaryOp, t: Trace): Trace {
    if op.OtherUnary? then env.unaryTrace(op, t) else Inverse(t)
  }

  function CallTrace(ds: Declarations, env: Env, callee: Callee, args: seq<Arg>): Trace {
    var name := TargetName(ds, callee);
    if name.Some? && Combine(name.value, args).Some? then Combine(name.value, args).value
    else env.callTrace(callee, args)
  }

  function TraceOf(ds: Declarations, env: Env, e: Expr): Trace
    decreases e
  {
    match e
    case Materialize(sub, _) => TraceOf(ds, env, sub)
    case Full(sub) => TraceOf(ds, env, sub)
    case ToBool(sub) => TraceOf(ds, env, sub)
    case Cast(_, sub) => TraceOf(ds, env, sub)
    case Paren(sub) => TraceOf(ds, env, sub)
    case Binary(op, l, r, _) => BinaryTrace(env, op, TraceOf(ds, env, l), TraceOf(ds, env, r), NumberOf(ds, env, r))
    case Unary(op, sub, _) => UnaryTrace(env, op, TraceOf(ds, env, sub))
    case Conditional(c, t, f, _) => if NumberOf(ds, env, c) != 0 then TraceOf(ds, env, t) else TraceOf(ds, env, f)
    case Call(callee, args, cxx, _) => CallTrace(ds, env, callee, CallArgs(ds, env, callee, args, cxx))
    case IntLiteral(_) => []
    case Leaf(id, _) => env.leafTrace(id)
  }

  function NumberOf(ds: Declarations, env: Env, e: Expr): int
    decreases e
  {
    match e
    case Materialize(sub, _) => NumberOf(ds, env, sub)
    case Full(sub) => NumberOf(ds, env, sub)
    case ToBool(sub) => if NumberOf(ds, env, sub) != 0 then 1 else 0
    case Cast(ty, sub) => Convert(env, ty, NumberOf(ds, env, sub))
    case Paren(sub) => NumberOf(ds, env, sub)
    case Binary(op, l, r, _) => env.binaryNumber(op, NumberOf(ds, env, l), NumberOf(ds, env, r))
    case Unary(op, sub, _) => env.unaryNumber(op, NumberOf(ds, env, sub))
    case Conditional(c, t, f, _) => if NumberOf(ds, env, c) != 0 then NumberOf(ds, env, t) else NumberOf(ds, env, f)
    case Call(callee, args, cxx, _) => env.callNumber(callee, CallArgs(ds, env, callee, args, cxx))
    case IntLiteral(n) => n
    case Leaf(id, _) => env.leafNumber(id)
  }

  /** Arguments are QExprs where the parameter is one, and numbers otherwise. */
  function ArgsOf(ds: Declarations, env: Env, params: seq<Param>, args: seq<Expr>): (r: seq<Arg>)
    ensures |r| == |args|
    decreases args, 0
  {
    if args == [] then []
    else if params == [] then [ClassicalArg(NumberOf(ds, env, args[0]))] + ArgsOf(ds, env, [], args[1..])
    else
      [if Quantum(params[0]) then QuantumArg(TraceOf(ds, env, args[0])) else ClassicalArg(NumberOf(ds, env, args[0]))]
      + ArgsOf(ds, env, params[1..], args[1..])
  }

  function ParamsOf(ds: Declarations, callee: Callee): seq<Param> {
    var sig := Resolve(ds, callee);
    if sig.Some? then sig.value.params else []
  }

  function CallArgs(ds: Declarations, env: Env, callee: Callee, args: seq<Expr>, cxx: bool): seq<Arg>
    decreases args, 1
  {
    if cxx && args != [] then
      [ClassicalArg(NumberOf(ds, env, args[0]))] + ArgsOf(ds, env, ParamsOf(ds, callee), args[1..])
    else ArgsOf(ds, env, ParamsOf(ds, callee), args)
  }
}
