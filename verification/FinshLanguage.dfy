/** The double-word expression language of finsh: syntax, left-to-right meaning and the
    child/sibling trees the parser builds for it. */
module FinshLanguage {
  import opened FinshMachine
  import opened FinshCompiler

  /** What can be assigned to and what has an address: a named variable or `*e`. */
  datatype Place = Named(addr: word, sys: bool) | Pointed(e: Expr)

  datatype Expr =
    | Const(v: word)
    | Read(place: Place)
    | AddressOf(place: Place)
    | Write(place: Place, e: Expr)
    | Bin(op: BinOp, l: Expr, r: Expr)
    | Not(e: Expr)
    | PreStep(a: word, up: bool)
    | PostStep(a: word, up: bool)
    | CallFn(f: word, args: Exprs)

  datatype Exprs = NoExpr | More(head: Expr, tail: Exprs)

  function Length(es: Exprs): nat {
    if es.NoExpr? then 0 else 1 + Length(es.tail)
  }

  // ---- meaning ----

  function LoadAt(m: Memory, a: word): Outcome {
    if Mapped(m, a) then Done(Load(m, a), m) else Fault
  }

  function StoreAt(m: Memory, a: word, v: word): Outcome {
    if Mapped(m, a) then Done(v, Store(m, a, v)) else Fault
  }

  function StoreResult(a: word, o: Outcome): Outcome {
    match o
    case Fault => Fault
    case Done(v, m) => StoreAt(m, a, v)
  }

  function Combine(op: BinOp, x: word, o: Outcome): Outcome {
    match o
    case Fault => Fault
    case Done(y, m) => if Defined(op, x, y) then Done(Apply(op, x, y), m) else Fault
  }

  /** At most 16 arguments can be passed. */
  function CallResult(f: word, o: ArgOutcome, sys: SysCalls): Outcome {
    match o
    case NoArgs => Fault
    case Args(vs, m) => if |vs| > 16 then Fault else sys(f, CallArgs(vs), m)
  }

  function Eval(e: Expr, m: Memory, sys: SysCalls): Outcome {
    match e
    case Const(v) => Done(v, m)
    case Read(p) =>
      (match EvalPlace(p, m, sys)
       case Fault => Fault
       case Done(a, m1) => LoadAt(m1, a))
    case AddressOf(p) => EvalPlace(p, m, sys)
    case Write(p, r) =>
      (match EvalPlace(p, m, sys)
       case Fault => Fault
       case Done(a, m1) => StoreResult(a, Eval(r, m1, sys)))
    case Bin(op, l, r) =>
      (match Eval(l, m, sys)
       case Fault => Fault
       case Done(x, m1) => Combine(op, x, Eval(r, m1, sys)))
    case Not(e1) =>
      (match Eval(e1, m, sys)
       case Fault => Fault
       case Done(v, m1) => Done(BitNot(v), m1))
    case PreStep(a, up) => if Mapped(m, a) then StoreAt(m, a, Bump(Load(m, a), up)) else Fault
    case PostStep(a, up) =>
      if Mapped(m, a) then Done(Load(m, a), Store(m, a, Bump(Load(m, a), up))) else Fault
    case CallFn(f, args) => CallResult(f, EvalArgs(args, m, sys), sys)
  }

  function Bump(v: word, up: bool): word {
    Wrap(if up then v + 1 else v - 1)
  }

  function EvalPlace(p: Place, m: Memory, sys: SysCalls): Outcome {
    match p
    case Named(a, _) => Done(a, m)
    case Pointed(e) => Eval(e, m, sys)
  }

  datatype ArgOutcome = NoArgs | Args(values: seq<word>, mem: Memory)

  function Prepend(v: word, o: ArgOutcome): ArgOutcome {
    match o
    case NoArgs => NoArgs
    case Args(vs, m) => Args([v] + vs, m)
  }

  function EvalArgs(es: Exprs, m: Memory, sys: SysCalls): ArgOutcome {
    match es
    case NoExpr => Args([], m)
    case More(e, tail) =>
      match Eval(e, m, sys)
      case Fault => NoArgs
      case Done(v, m1) => Prepend(v, EvalArgs(tail, m1, sys))
  }

  /** Meaning of a list of statements: the value of the last one. */
  function EvalProgram(es: Exprs, m: Memory, sys: SysCalls): Outcome
    requires es.More?
  {
    match Eval(es.head, m, sys)
    case Fault => Fault
    case Done(v, m1) => if es.tail.NoExpr? then Done(v, m1) else EvalProgram(es.tail, m1, sys)
  }

  // ---- parser trees ----

  function Fresh(kind: Kind, child: Node, sibling: Node): Node {
    Node(kind, false, Void, child, sibling)
  }

  function PlaceTree(p: Place, sibling: Node): (r: Node)
    ensures r.Node? && r.sibling == sibling
  {
    match p
    case Named(a, sys) => Fresh(Id(if sys then SysVar(a) else Var(a)), Null, sibling)
    case Pointed(e) => Fresh(GetValue, Tree(e, Null), sibling)
  }

  function Tree(e: Expr, sibling: Node): (r: Node)
    ensures r.Node? && r.sibling == sibling
  {
    match e
    case Const(v) => Fresh(Value(v), Null, sibling)
    case Read(p) => PlaceTree(p, sibling)
    case AddressOf(p) => Fresh(GetAddr, PlaceTree(p, Null), sibling)
    case Write(p, r) => Fresh(Assign, PlaceTree(p, Tree(r, Null)), sibling)
    case Bin(op, l, r) => Fresh(Arith(op), Tree(l, Tree(r, Null)), sibling)
    case Not(e1) => Fresh(Bitwise, Tree(e1, Null), sibling)
    case PreStep(a, up) => Fresh(if up then PreInc else PreDec, Fresh(Id(Var(a)), Null, Null), sibling)
    case PostStep(a, up) => Fresh(if up then Inc else Dec, Fresh(Id(Var(a)), Null, Null), sibling)
    case CallFn(f, args) => Fresh(Func, Fresh(Id(SysFunc(f)), Null, Chain(args)), sibling)
  }

  /** Arguments of a call, or the statements of a program, linked as siblings. */
  function Chain(es: Exprs): Node {
    if es.NoExpr? then Null else Tree(es.head, Chain(es.tail))
  }

  // ---- where the generator is right ----

  /** The data type the annotation gives an expression: that of its leftmost leaf, which is
      void exactly when the leaf is a callee. */
  function TypeOf(e: Expr): DataType {
    match e
    case Const(_) | PreStep(_, _) | PostStep(_, _) => Dword
    case Read(p) => PlaceType(p)
    case AddressOf(p) => PlaceType(p)
    case Write(p, _) => PlaceType(p)
    case Bin(_, l, _) => TypeOf(l)
    case Not(e1) => TypeOf(e1)
    case CallFn(_, _) => Void
  }

  function PlaceType(p: Place): DataType {
    match p
    case Named(_, _) => Dword
    case Pointed(e) => TypeOf(e)
  }

  /** No operator, dereference or assignment through a pointer has a call as its leftmost
      operand. */
  predicate WellTyped(e: Expr) {
    match e
    case Const(_) | PreStep(_, _) | PostStep(_, _) => true
    case Read(p) => PlaceWellTyped(p) && PlaceType(p) == Dword
    case AddressOf(p) => PlaceWellTyped(p)
    case Write(p, r) => PlaceWellTyped(p) && PlaceType(p) == Dword && WellTyped(r)
    case Bin(_, l, r) => WellTyped(l) && TypeOf(l) == Dword && WellTyped(r)
    case Not(e1) => WellTyped(e1) && TypeOf(e1) == Dword
    case CallFn(_, args) => AllWellTyped(args)
  }

  predicate PlaceWellTyped(p: Place) {
    p.Pointed? ==> WellTyped(p.e)
  }

  predicate AllWellTyped(es: Exprs) {
    es.More? ==> WellTyped(es.head) && AllWellTyped(es.tail)
  }

  // ---- stack demand ----

  function Max(a: nat, b: nat): nat { if a < b then b else a }

  function Depth(e: Expr): nat {
    match e
    case Const(_) => 1
    case Read(p) => PlaceDepth(p)
    case AddressOf(p) => PlaceDepth(p)
    case Write(p, r) => Max(PlaceDepth(p), 1 + Depth(r))
    case Bin(_, l, r) => Max(Depth(l), 1 + Depth(r))
    case Not(e1) => Depth(e1)
    case PreStep(_, _) => 3
    case PostStep(_, _) => 4
    case CallFn(_, args) => 1 + ArgDepth(args)
  }

  function PlaceDepth(p: Place): nat {
    match p
    case Named(_, _) => 1
    case Pointed(e) => Depth(e)
  }

  function ArgDepth(es: Exprs): nat {
    if es.NoExpr? then 0 else Max(Depth(es.head), 1 + ArgDepth(es.tail))
  }

  /** Cells a list of statements needs when each value is dropped before the next. */
  function ProgramDepth(es: Exprs): nat {
    if es.NoExpr? then 0 else Max(Depth(es.head), ProgramDepth(es.tail))
  }
}
