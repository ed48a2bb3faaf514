/** Compiler correctness: the byte code of a tree computes what the expression means. */
module FinshCorrect {
  import opened FinshMachine
  import opened FinshCompiler
  import opened FinshLanguage

  // ---- the intended code, independent of annotations ----

  function StepOp(up: bool): BinOp { if up then Add else Sub }

  function Intended(e: Expr): (r: seq<byte>)
    ensures |r| > 0
  {
    match e
    case Const(v) => LdDword(v)
    case Read(Named(a, _)) => LdValueDword(a)
    case Read(Pointed(p)) => Intended(p) + [OP_LD_VALUE_DWORD_STACK]
    case AddressOf(p) => IntendedPlace(p)
    case Write(p, r) => IntendedPlace(p) + Intended(r) + [OP_ST_DWORD, OP_LD_VALUE_DWORD_STACK]
    case Bin(op, l, r) => Intended(l) + Intended(r) + [OpCode(op)]
    case Not(e1) => Intended(e1) + [OP_BITWISE_DWORD]
    case PreStep(a, up) => LdDword(a) + PreCode(a, StepOp(up))
    case PostStep(a, up) => LdValueDword(a) + PostCode(a, StepOp(up))
    case CallFn(f, args) => LdDword(f) + IntendedArgs(args) + [OP_SYSCALL, Length(args) % 0x100]
  }

  function IntendedPlace(p: Place): (r: seq<byte>)
    ensures |r| > 0
  {
    match p
    case Named(a, _) => LdDword(a)
    case Pointed(e) => Intended(e)
  }

  function IntendedArgs(es: Exprs): (r: seq<byte>)
    ensures |r| >= Length(es)
  {
    if es.NoExpr? then [] else Intended(es.head) + IntendedArgs(es.tail)
  }

  function IntendedProgram(es: Exprs): seq<byte> {
    if es.NoExpr? then []
    else if es.tail.NoExpr? then Intended(es.head)
    else Intended(es.head) + [OP_POP] + IntendedProgram(es.tail)
  }

  // ---- the generator emits the intended code exactly on well-typed expressions ----

  function Generated(e: Expr): seq<byte> { Code(TypeCheck(Tree(e, Null), false)) }
  function GeneratedPlace(p: Place): seq<byte> { Code(TypeCheck(PlaceTree(p, Null), true)) }
  function GeneratedArgs(es: Exprs): seq<byte> { Code(TypeCheck(Chain(es), false)) }

  lemma {:induction false} TreeShape(e: Expr, s: Node, isAddr: bool)
    ensures Tree(e, Null).Node? && Tree(e, s) == Tree(e, Null).(sibling := s)
    ensures TypeCheck(Tree(e, s), isAddr).dataType == TypeOf(e)
  {
    match e
    case Const(_) =>
    case Read(p) => PlaceShape(p, s, isAddr);
    case AddressOf(p) => PlaceShape(p, Null, true);
    case Write(p, r) => PlaceShape(p, Tree(r, Null), true);
    case Bin(_, l, r) => TreeShape(l, Tree(r, Null), isAddr);
    case Not(e1) => TreeShape(e1, Null, isAddr);
    case PreStep(_, _) =>
    case PostStep(_, _) =>
    case CallFn(_, _) =>
  }

  lemma {:induction false} PlaceShape(p: Place, s: Node, isAddr: bool)
    ensures PlaceTree(p, Null).Node? && PlaceTree(p, s) == PlaceTree(p, Null).(sibling := s)
    ensures TypeCheck(PlaceTree(p, s), isAddr).dataType == PlaceType(p)
  {
    if p.Pointed? { TreeShape(p.e, Null, false); }
  }

  /** A sibling's code follows the code of the node itself. */
  lemma {:induction false} SiblingCode(n: Node, s: Node, isAddr: bool)
    requires n.Node? && n.sibling == Null
    ensures Code(TypeCheck(n.(sibling := s), isAddr)) == Code(TypeCheck(n, isAddr)) + Code(TypeCheck(s, false))
  {
    var t, u := TypeCheck(n, isAddr), TypeCheck(n.(sibling := s), isAddr);
    assert u == t.(sibling := TypeCheck(s, false));
    assert OwnCode(t) == OwnCode(u);
    assert Code(u) == Code(u.child) + OwnCode(u) + Code(u.sibling);
    assert Code(t) == Code(t.child) + OwnCode(t) + [];
  }

  /** Code of an only operand: its own operands' code, then its own. */
  lemma {:induction false} AloneCode(n: Node, isAddr: bool)
    requires n.Node? && n.sibling.Null?
    ensures var t := TypeCheck(n, isAddr);
      Code(t) == Code(TypeCheck(n.child, ChildAddress(n.kind, isAddr))) + OwnCode(t)
  {
    var t := TypeCheck(n, isAddr);
    assert Code(t) == Code(t.child) + OwnCode(t) + Code(t.sibling);
  }

  lemma {:induction false} ChainLength(es: Exprs)
    ensures Siblings(Chain(es)) == Length(es)
  {
    if es.More? {
      TreeShape(es.head, Chain(es.tail), false);
      ChainLength(es.tail);
    }
  }

  /** What an operator with an operand of type `t` contributes. */
  function Typed(t: DataType, code: seq<byte>): seq<byte> {
    if t == Dword then code else []
  }

  lemma {:induction false} GeneratedRead(p: Expr)
    ensures Generated(Read(Pointed(p))) == Generated(p) + Typed(TypeOf(p), [OP_LD_VALUE_DWORD_STACK])
  {
    assert Tree(Read(Pointed(p)), Null) == PlaceTree(Pointed(p), Null);
    TreeShape(p, Null, false);
    AloneCode(PlaceTree(Pointed(p), Null), false);
  }

  lemma {:induction false} GeneratedAddress(p: Place)
    ensures Generated(AddressOf(p)) == GeneratedPlace(p)
  {
    AloneCode(Tree(AddressOf(p), Null), false);
  }

  lemma {:induction false} GeneratedWrite(p: Place, r: Expr)
    ensures Generated(Write(p, r))
         == GeneratedPlace(p) + Generated(r) + Typed(PlaceType(p), [OP_ST_DWORD, OP_LD_VALUE_DWORD_STACK])
  {
    AloneCode(Tree(Write(p, r), Null), false);
    PlaceShape(p, Tree(r, Null), true);
    SiblingCode(PlaceTree(p, Null), Tree(r, Null), true);
  }

  lemma {:induction false} GeneratedBin(op: BinOp, l: Expr, r: Expr)
    ensures Generated(Bin(op, l, r)) == Generated(l) + Generated(r) + Typed(TypeOf(l), [OpCode(op)])
  {
    AloneCode(Tree(Bin(op, l, r), Null), false);
    TreeShape(l, Tree(r, Null), false);
    SiblingCode(Tree(l, Null), Tree(r, Null), false);
  }

  lemma {:induction false} GeneratedNot(e: Expr)
    ensures Generated(Not(e)) == Generated(e) + Typed(TypeOf(e), [OP_BITWISE_DWORD])
  {
    AloneCode(Tree(Not(e), Null), false);
    TreeShape(e, Null, false);
  }

  lemma GeneratedPreStep(a: word, up: bool)
    ensures Generated(PreStep(a, up)) == Intended(PreStep(a, up))
  {
    AloneCode(Tree(PreStep(a, up), Null), false);
    AloneCode(Fresh(Id(Var(a)), Null, Null), true);
    assert [] + LdDword(a) == LdDword(a);
  }

  lemma GeneratedPostStep(a: word, up: bool)
    ensures Generated(PostStep(a, up)) == Intended(PostStep(a, up))
  {
    AloneCode(Tree(PostStep(a, up), Null), false);
    AloneCode(Fresh(Id(Var(a)), Null, Null), false);
    assert [] + LdValueDword(a) == LdValueDword(a);
  }

  lemma {:induction false} GeneratedCall(f: word, args: Exprs)
    ensures Generated(CallFn(f, args)) == LdDword(f) + GeneratedArgs(args) + [OP_SYSCALL, Length(args) % 0x100]
  {
    AloneCode(Tree(CallFn(f, args), Null), false);
    ChainLength(args);
    SiblingCode(Fresh(Id(SysFunc(f)), Null, Null), Chain(args), false);
    AloneCode(Fresh(Id(SysFunc(f)), Null, Null), false);
  }

  /** The generated code is the intended code if the expression is well typed, and strictly
      shorter otherwise. */
  lemma {:induction false} GeneratesIntended(e: Expr)
    ensures |Generated(e)| <= |Intended(e)|
    ensures if WellTyped(e) then Generated(e) == Intended(e) else |Generated(e)| < |Intended(e)|
  {
    match e
    case Const(_) => AloneCode(Tree(e, Null), false);
    case Read(Named(a, sys)) =>
      assert Tree(e, Null) == PlaceTree(Named(a, sys), Null);
      AloneCode(Tree(e, Null), false);
      assert PlaceWellTyped(Named(a, sys)) && PlaceType(Named(a, sys)) == Dword;
    case Read(Pointed(p)) =>
      GeneratedRead(p);
      GeneratesIntended(p);
      assert PlaceWellTyped(Pointed(p)) == WellTyped(p) && PlaceType(Pointed(p)) == TypeOf(p);
    case AddressOf(p) => GeneratedAddress(p); GeneratesPlace(p);
    case Write(p, r) => GeneratedWrite(p, r); GeneratesPlace(p); GeneratesIntended(r);
    case Bin(op, l, r) => GeneratedBin(op, l, r); GeneratesIntended(l); GeneratesIntended(r);
    case Not(e1) => GeneratedNot(e1); GeneratesIntended(e1);
    case PreStep(a, up) => GeneratedPreStep(a, up);
    case PostStep(a, up) => GeneratedPostStep(a, up);
    case CallFn(f, args) => GeneratedCall(f, args); GeneratesArgs(args);
  }

  lemma {:induction false} GeneratesPlace(p: Place)
    ensures |GeneratedPlace(p)| <= |IntendedPlace(p)|
    ensures if PlaceWellTyped(p) then GeneratedPlace(p) == IntendedPlace(p)
      else |GeneratedPlace(p)| < |IntendedPlace(p)|
  {
    AloneCode(PlaceTree(p, Null), true);
    if p.Pointed? { GeneratesIntended(p.e); }
  }

  lemma {:induction false} GeneratesArgs(es: Exprs)
    ensures |GeneratedArgs(es)| <= |IntendedArgs(es)|
    ensures if AllWellTyped(es) then GeneratedArgs(es) == IntendedArgs(es) else |GeneratedArgs(es)| < |IntendedArgs(es)|
  {
    if es.More? {
      GeneratesIntended(es.head);
      GeneratesArgs(es.tail);
      TreeShape(es.head, Chain(es.tail), false);
      SiblingCode(Tree(es.head, Null), Chain(es.tail), false);
    }
  }

  // ---- the intended code computes the meaning ----

  predicate Holds(text: seq<byte>, pc: nat, code: seq<byte>) {
    pc + |code| <= |text| && text[pc..pc + |code|] == code
  }

  /** A piece of code at `pc` is made of its parts at their places. */
  lemma HoldsParts(text: seq<byte>, pc: nat, c: seq<byte>, d: seq<byte>)
    requires Holds(text, pc, c + d)
    ensures Holds(text, pc, c) && Holds(text, pc + |c|, d)
  {
    var whole := text[pc..pc + |c + d|];
    assert text[pc..pc + |c|] == whole[..|c|];
    assert text[pc + |c|..pc + |c| + |d|] == whole[|c|..];
  }

  /** Where a run stands after code that means `o` has been executed. */
  function Continue(text: seq<byte>, o: Outcome, pc: nat, stack: seq<word>, sys: SysCalls): State {
    match o
    case Fault => Stuck
    case Done(v, m) => Run(text, At(pc, stack + [v], m), sys)
  }

  /** Started at `pc`, the machine arrives at `end` having computed `o` on top of `stack`. */
  predicate Computes(text: seq<byte>, pc: nat, end: nat, stack: seq<word>, m: Memory, o: Outcome, sys: SysCalls) {
    Run(text, At(pc, stack, m), sys) == Continue(text, o, end, stack, sys)
  }

  /** One turn of the fetch loop. */
  lemma RunOperation(text: seq<byte>, pc: nat, b: byte, stack: seq<word>, m: Memory, sys: SysCalls)
    requires Holds(text, pc, [b])
    ensures Run(text, At(pc, stack, m), sys) == Run(text, Operation(text, Decode(b), pc + 1, stack, m, sys), sys)
  {
    assert text[pc] == text[pc..pc + 1][0];
    assert Run(text, At(pc, stack, m), sys) == Execute(text, Decode(b), pc + 1, stack, m, sys);
  }

  lemma RunLdDword(text: seq<byte>, pc: nat, v: word, stack: seq<word>, m: Memory, sys: SysCalls)
    requires Holds(text, pc, LdDword(v)) && |stack| < STACK_MAX
    ensures Run(text, At(pc, stack, m), sys) == Run(text, At(pc + 5, stack + [v], m), sys)
  {
    HoldsParts(text, pc, [OP_LD_DWORD], Set32(v));
    OperandRoundTrip(v);
    RunOperation(text, pc, OP_LD_DWORD, stack, m, sys);
  }

  lemma RunLdValueDword(text: seq<byte>, pc: nat, a: word, stack: seq<word>, m: Memory, sys: SysCalls)
    requires Holds(text, pc, LdValueDword(a)) && |stack| < STACK_MAX
    ensures Computes(text, pc, pc + 5, stack, m, LoadAt(m, a), sys)
  {
    HoldsParts(text, pc, [OP_LD_VALUE_DWORD], Set32(a));
    OperandRoundTrip(a);
    RunOperation(text, pc, OP_LD_VALUE_DWORD, stack, m, sys);
  }

  lemma DecodeOpCode(op: BinOp)
    ensures Decode(OpCode(op)) == Binary(op)
  {
  }

  lemma RunBinary(text: seq<byte>, pc: nat, op: BinOp, stack: seq<word>, x: word, y: word, m: Memory, sys: SysCalls)
    requires Holds(text, pc, [OpCode(op)])
    ensures Run(text, At(pc, stack + [x] + [y], m), sys)
         == if Defined(op, x, y) then Run(text, At(pc + 1, stack + [Apply(op, x, y)], m), sys) else Stuck
  {
    DecodeOpCode(op);
    RunOperation(text, pc, OpCode(op), stack + [x] + [y], m, sys);
    assert (stack + [x] + [y])[..|stack|] == stack;
  }

  lemma RunLoadTop(text: seq<byte>, pc: nat, stack: seq<word>, a: word, m: Memory, sys: SysCalls)
    requires Holds(text, pc, [OP_LD_VALUE_DWORD_STACK])
    ensures Run(text, At(pc, stack + [a], m), sys) == Continue(text, LoadAt(m, a), pc + 1, stack, sys)
  {
    RunOperation(text, pc, OP_LD_VALUE_DWORD_STACK, stack + [a], m, sys);
    assert (stack + [a])[..|stack|] == stack;
  }

  lemma RunStore(text: seq<byte>, pc: nat, stack: seq<word>, a: word, v: word, m: Memory, sys: SysCalls)
    requires Holds(text, pc, [OP_ST_DWORD])
    ensures Run(text, At(pc, stack + [a] + [v], m), sys)
         == if Mapped(m, a) then Run(text, At(pc + 1, stack + [a], Store(m, a, v)), sys) else Stuck
  {
    RunOperation(text, pc, OP_ST_DWORD, stack + [a] + [v], m, sys);
    assert (stack + [a] + [v])[..|stack| + 1] == stack + [a];
  }

  lemma RunPop(text: seq<byte>, pc: nat, stack: seq<word>, v: word, m: Memory, sys: SysCalls)
    requires Holds(text, pc, [OP_POP])
    ensures Run(text, At(pc, stack + [v], m), sys) == Run(text, At(pc + 1, stack, m), sys)
  {
    RunOperation(text, pc, OP_POP, stack + [v], m, sys);
    assert (stack + [v])[..|stack|] == stack;
  }

  /** Store through the address below the top, then read it again. */
  lemma RunAssign(text: seq<byte>, pc: nat, stack: seq<word>, a: word, v: word, m: Memory, sys: SysCalls)
    requires Holds(text, pc, [OP_ST_DWORD, OP_LD_VALUE_DWORD_STACK])
    ensures Run(text, At(pc, stack + [a] + [v], m), sys) == Continue(text, StoreAt(m, a, v), pc + 2, stack, sys)
  {
    HoldsParts(text, pc, [OP_ST_DWORD], [OP_LD_VALUE_DWORD_STACK]);
    RunStore(text, pc, stack, a, v, m, sys);
    if Mapped(m, a) {
      LoadAfterStore(m, a, v);
      RunLoadTop(text, pc + 1, stack, a, Store(m, a, v), sys);
    }
  }

  /** The increment sequence before its last operation: address on the stack, memory updated. */
  lemma RunIncrement(text: seq<byte>, pc: nat, a: word, up: bool, last: byte, stack: seq<word>, m: Memory,
      sys: SysCalls)
    requires Holds(text, pc, IncrementCode(a, StepOp(up), last)) && |stack| + 3 <= STACK_MAX
    ensures Holds(text, pc + 12, [last])
    ensures Run(text, At(pc, stack + [a], m), sys)
         == if Mapped(m, a) then Run(text, At(pc + 12, stack + [a], Store(m, a, Bump(Load(m, a), up))), sys) else Stuck
  {
    var op := StepOp(up);
    var c1, c2 := LdValueDword(a), LdDword(1);
    HoldsParts(text, pc, c1 + c2 + [OpCode(op)], [OP_ST_DWORD, last]);
    HoldsParts(text, pc, c1 + c2, [OpCode(op)]);
    HoldsParts(text, pc, c1, c2);
    HoldsParts(text, pc + 11, [OP_ST_DWORD], [last]);
    RunLdValueDword(text, pc, a, stack + [a], m, sys);
    if Mapped(m, a) {
      var x := Load(m, a);
      RunLdDword(text, pc + 5, 1, stack + [a] + [x], m, sys);
      RunBinary(text, pc + 10, op, stack + [a], x, 1, m, sys);
      RunStore(text, pc + 11, stack, a, Bump(x, up), m, sys);
    }
  }

  lemma CombineAfter(text: seq<byte>, pc: nat, p1: nat, p2: nat, op: BinOp, stack: seq<word>, m: Memory, o: Outcome,
      q: Outcome, sys: SysCalls)
    requires Computes(text, pc, p1, stack, m, o, sys) && Holds(text, p2, [OpCode(op)])
    requires o.Done? ==> Computes(text, p1, p2, stack + [o.value], o.mem, q, sys)
    ensures Computes(text, pc, p2 + 1, stack, m, if o.Fault? then Fault else Combine(op, o.value, q), sys)
  {
    if o.Done? && q.Done? { RunBinary(text, p2, op, stack, o.value, q.value, q.mem, sys); }
  }

  lemma AssignAfter(text: seq<byte>, pc: nat, p1: nat, p2: nat, stack: seq<word>, m: Memory, o: Outcome, q: Outcome,
      sys: SysCalls)
    requires Computes(text, pc, p1, stack, m, o, sys) && Holds(text, p2, [OP_ST_DWORD, OP_LD_VALUE_DWORD_STACK])
    requires o.Done? ==> Computes(text, p1, p2, stack + [o.value], o.mem, q, sys)
    ensures Computes(text, pc, p2 + 2, stack, m, if o.Fault? then Fault else StoreResult(o.value, q), sys)
  {
    if o.Done? && q.Done? { RunAssign(text, p2, stack, o.value, q.value, q.mem, sys); }
  }

  lemma ComplementAfter(text: seq<byte>, pc: nat, p1: nat, stack: seq<word>, m: Memory, o: Outcome, sys: SysCalls)
    requires Computes(text, pc, p1, stack, m, o, sys) && Holds(text, p1, [OP_BITWISE_DWORD])
    ensures Computes(text, pc, p1 + 1, stack, m, if o.Fault? then Fault else Done(BitNot(o.value), o.mem), sys)
  {
    if o.Done? {
      RunOperation(text, p1, OP_BITWISE_DWORD, stack + [o.value], o.mem, sys);
      assert (stack + [o.value])[..|stack|] == stack;
    }
  }

  lemma LoadAfter(text: seq<byte>, pc: nat, p1: nat, stack: seq<word>, m: Memory, o: Outcome, sys: SysCalls)
    requires Computes(text, pc, p1, stack, m, o, sys) && Holds(text, p1, [OP_LD_VALUE_DWORD_STACK])
    ensures Computes(text, pc, p1 + 1, stack, m, if o.Fault? then Fault else LoadAt(o.mem, o.value), sys)
  {
    if o.Done? { RunLoadTop(text, p1, stack, o.value, o.mem, sys); }
  }

  lemma RunPreStep(a: word, up: bool, text: seq<byte>, pc: nat, stack: seq<word>, m: Memory, sys: SysCalls)
    requires Holds(text, pc, Intended(PreStep(a, up))) && |stack| + 3 <= STACK_MAX
    ensures Computes(text, pc, pc + 18, stack, m, Eval(PreStep(a, up), m, sys), sys)
  {
    HoldsParts(text, pc, LdDword(a), PreCode(a, StepOp(up)));
    RunLdDword(text, pc, a, stack, m, sys);
    RunIncrement(text, pc + 5, a, up, OP_LD_VALUE_DWORD_STACK, stack, m, sys);
    if Mapped(m, a) {
      LoadAfterStore(m, a, Bump(Load(m, a), up));
      RunLoadTop(text, pc + 17, stack, a, Store(m, a, Bump(Load(m, a), up)), sys);
    }
  }

  lemma RunPostStep(a: word, up: bool, text: seq<byte>, pc: nat, stack: seq<word>, m: Memory, sys: SysCalls)
    requires Holds(text, pc, Intended(PostStep(a, up))) && |stack| + 4 <= STACK_MAX
    ensures Computes(text, pc, pc + 23, stack, m, Eval(PostStep(a, up), m, sys), sys)
  {
    HoldsParts(text, pc, LdValueDword(a), PostCode(a, StepOp(up)));
    HoldsParts(text, pc + 5, LdDword(a), IncrementCode(a, StepOp(up), OP_POP));
    RunLdValueDword(text, pc, a, stack, m, sys);
    if Mapped(m, a) {
      var x := Load(m, a);
      RunLdDword(text, pc + 5, a, stack + [x], m, sys);
      RunIncrement(text, pc + 10, a, up, OP_POP, stack + [x], m, sys);
      RunPop(text, pc + 22, stack + [x], a, Store(m, a, Bump(x, up)), sys);
    }
  }

  predicate ComputesAll(text: seq<byte>, pc: nat, end: nat, stack: seq<word>, m: Memory, o: ArgOutcome, sys: SysCalls) {
    Run(text, At(pc, stack, m), sys) == if o.NoArgs? then Stuck else Run(text, At(end, stack + o.values, o.mem), sys)
  }

  lemma ArgumentsAfter(text: seq<byte>, pc: nat, p1: nat, p2: nat, stack: seq<word>, m: Memory, o: Outcome,
      q: ArgOutcome, sys: SysCalls)
    requires Computes(text, pc, p1, stack, m, o, sys)
    requires o.Done? ==> ComputesAll(text, p1, p2, stack + [o.value], o.mem, q, sys)
    ensures ComputesAll(text, pc, p2, stack, m, if o.Fault? then NoArgs else Prepend(o.value, q), sys)
  {
    if o.Done? && q.Args? { assert stack + [o.value] + q.values == stack + ([o.value] + q.values); }
  }

  /** The call operation on a stack holding the callee and its `n` arguments. */
  lemma CallAfter(text: seq<byte>, pc: nat, p1: nat, f: word, n: nat, stack: seq<word>, m: Memory, o: ArgOutcome,
      sys: SysCalls)
    requires n < 0x100 && Holds(text, pc, LdDword(f)) && Holds(text, p1, [OP_SYSCALL, n]) && |stack| < STACK_MAX
    requires ComputesAll(text, pc + 5, p1, stack + [f], m, o, sys) && (o.Args? ==> |o.values| == n)
    ensures Computes(text, pc, p1 + 2, stack, m, CallResult(f, o, sys), sys)
  {
    RunLdDword(text, pc, f, stack, m, sys);
    if o.Args? {
      var full := stack + [f] + o.values;
      assert [OP_SYSCALL, n] == [OP_SYSCALL] + [n];
      HoldsParts(text, p1, [OP_SYSCALL], [n]);
      assert text[p1 + 1] == text[p1 + 1..p1 + 2][0] == n;
      RunOperation(text, p1, OP_SYSCALL, full, o.mem, sys);
      assert full[|stack| + 1..] == o.values && full[..|stack|] == stack && full[|stack|] == f;
    }
  }

  lemma {:induction false} CallParts(f: word, args: Exprs, text: seq<byte>, pc: nat)
    requires Holds(text, pc, Intended(CallFn(f, args))) && |text| <= TEXT_MAX
    ensures Length(args) < 0x100
    ensures Holds(text, pc, LdDword(f)) && Holds(text, pc + 5, IntendedArgs(args))
    ensures Holds(text, pc + 5 + |IntendedArgs(args)|, [OP_SYSCALL, Length(args)])
  {
    HoldsParts(text, pc, LdDword(f) + IntendedArgs(args), [OP_SYSCALL, Length(args) % 0x100]);
    HoldsParts(text, pc, LdDword(f), IntendedArgs(args));
  }

  /** Executing the intended code of an expression pushes exactly its value, with exactly its
      effect on memory, and gets stuck exactly where the expression faults. */
  lemma {:induction false} RunIntended(e: Expr, text: seq<byte>, pc: nat, stack: seq<word>, m: Memory, sys: SysCalls)
    requires Holds(text, pc, Intended(e)) && |text| <= TEXT_MAX
    requires |stack| + Depth(e) <= STACK_MAX
    ensures Computes(text, pc, pc + |Intended(e)|, stack, m, Eval(e, m, sys), sys)
    decreases e, 1
  {
    match e
    case Const(v) => RunLdDword(text, pc, v, stack, m, sys);
    case Read(Named(a, _)) => RunLdValueDword(text, pc, a, stack, m, sys);
    case Read(Pointed(_)) => RunRead(e, text, pc, stack, m, sys);
    case AddressOf(p) => RunPlace(p, text, pc, stack, m, sys);
    case Write(_, _) => RunWrite(e, text, pc, stack, m, sys);
    case Bin(_, _, _) => RunBin(e, text, pc, stack, m, sys);
    case Not(_) => RunNot(e, text, pc, stack, m, sys);
    case PreStep(a, up) => RunPreStep(a, up, text, pc, stack, m, sys);
    case PostStep(a, up) => RunPostStep(a, up, text, pc, stack, m, sys);
    case CallFn(_, _) => RunCall(e, text, pc, stack, m, sys);
  }

  lemma {:induction false} RunPlace(p: Place, text: seq<byte>, pc: nat, stack: seq<word>, m: Memory, sys: SysCalls)
    requires Holds(text, pc, IntendedPlace(p)) && |text| <= TEXT_MAX
    requires |stack| + PlaceDepth(p) <= STACK_MAX
    ensures Computes(text, pc, pc + |IntendedPlace(p)|, stack, m, EvalPlace(p, m, sys), sys)
    decreases p, 0
  {
    match p
    case Named(a, _) => RunLdDword(text, pc, a, stack, m, sys);
    case Pointed(e) => RunIntended(e, text, pc, stack, m, sys);
  }

  lemma {:induction false} RunRead(e: Expr, text: seq<byte>, pc: nat, stack: seq<word>, m: Memory, sys: SysCalls)
    requires e.Read? && e.place.Pointed? && Holds(text, pc, Intended(e)) && |text| <= TEXT_MAX
    requires |stack| + Depth(e) <= STACK_MAX
    ensures Computes(text, pc, pc + |Intended(e)|, stack, m, Eval(e, m, sys), sys)
    decreases e, 0
  {
    var p := e.place.e;
    HoldsParts(text, pc, Intended(p), [OP_LD_VALUE_DWORD_STACK]);
    RunIntended(p, text, pc, stack, m, sys);
    LoadAfter(text, pc, pc + |Intended(p)|, stack, m, Eval(p, m, sys), sys);
  }

  lemma {:induction false} RunNot(e: Expr, text: seq<byte>, pc: nat, stack: seq<word>, m: Memory, sys: SysCalls)
    requires e.Not? && Holds(text, pc, Intended(e)) && |text| <= TEXT_MAX
    requires |stack| + Depth(e) <= STACK_MAX
    ensures Computes(text, pc, pc + |Intended(e)|, stack, m, Eval(e, m, sys), sys)
    decreases e, 0
  {
    HoldsParts(text, pc, Intended(e.e), [OP_BITWISE_DWORD]);
    RunIntended(e.e, text, pc, stack, m, sys);
    ComplementAfter(text, pc, pc + |Intended(e.e)|, stack, m, Eval(e.e, m, sys), sys);
  }

  lemma {:induction false} RunWrite(e: Expr, text: seq<byte>, pc: nat, stack: seq<word>, m: Memory, sys: SysCalls)
    requires e.Write? && Holds(text, pc, Intended(e)) && |text| <= TEXT_MAX
    requires |stack| + Depth(e) <= STACK_MAX
    ensures Computes(text, pc, pc + |Intended(e)|, stack, m, Eval(e, m, sys), sys)
    decreases e, 0
  {
    var c, d := IntendedPlace(e.place), Intended(e.e);
    HoldsParts(text, pc, c + d, [OP_ST_DWORD, OP_LD_VALUE_DWORD_STACK]);
    HoldsParts(text, pc, c, d);
    RunPlace(e.place, text, pc, stack, m, sys);
    var o := EvalPlace(e.place, m, sys);
    var q := if o.Done? then Eval(e.e, o.mem, sys) else Fault;
    if o.Done? { RunIntended(e.e, text, pc + |c|, stack + [o.value], o.mem, sys); }
    AssignAfter(text, pc, pc + |c|, pc + |c| + |d|, stack, m, o, q, sys);
  }

  lemma {:induction false} RunBin(e: Expr, text: seq<byte>, pc: nat, stack: seq<word>, m: Memory, sys: SysCalls)
    requires e.Bin? && Holds(text, pc, Intended(e)) && |text| <= TEXT_MAX
    requires |stack| + Depth(e) <= STACK_MAX
    ensures Computes(text, pc, pc + |Intended(e)|, stack, m, Eval(e, m, sys), sys)
    decreases e, 0
  {
    var c, d := Intended(e.l), Intended(e.r);
    HoldsParts(text, pc, c + d, [OpCode(e.op)]);
    HoldsParts(text, pc, c, d);
    RunIntended(e.l, text, pc, stack, m, sys);
    var o := Eval(e.l, m, sys);
    var q := if o.Done? then Eval(e.r, o.mem, sys) else Fault;
    if o.Done? { RunIntended(e.r, text, pc + |c|, stack + [o.value], o.mem, sys); }
    CombineAfter(text, pc, pc + |c|, pc + |c| + |d|, e.op, stack, m, o, q, sys);
  }

  lemma {:induction false} RunArgs(es: Exprs, text: seq<byte>, pc: nat, stack: seq<word>, m: Memory, sys: SysCalls)
    requires Holds(text, pc, IntendedArgs(es)) && |text| <= TEXT_MAX
    requires |stack| + ArgDepth(es) <= STACK_MAX
    ensures EvalArgs(es, m, sys).Args? ==> |EvalArgs(es, m, sys).values| == Length(es)
    ensures ComputesAll(text, pc, pc + |IntendedArgs(es)|, stack, m, EvalArgs(es, m, sys), sys)
    decreases es, 0
  {
    if es.NoExpr? {
      assert stack + [] == stack;
    } else {
      var c, d := Intended(es.head), IntendedArgs(es.tail);
      HoldsParts(text, pc, c, d);
      RunIntended(es.head, text, pc, stack, m, sys);
      var o := Eval(es.head, m, sys);
      var q := if o.Done? then EvalArgs(es.tail, o.mem, sys) else NoArgs;
      if o.Done? { RunArgs(es.tail, text, pc + |c|, stack + [o.value], o.mem, sys); }
      ArgumentsAfter(text, pc, pc + |c|, pc + |c| + |d|, stack, m, o, q, sys);
    }
  }

  lemma {:induction false} RunCall(e: Expr, text: seq<byte>, pc: nat, stack: seq<word>, m: Memory, sys: SysCalls)
    requires e.CallFn? && Holds(text, pc, Intended(e)) && |text| <= TEXT_MAX
    requires |stack| + Depth(e) <= STACK_MAX
    ensures Computes(text, pc, pc + |Intended(e)|, stack, m, Eval(e, m, sys), sys)
    decreases e, 0
  {
    CallParts(e.f, e.args, text, pc);
    RunArgs(e.args, text, pc + 5, stack + [e.f], m, sys);
    CallAfter(text, pc, pc + 5 + |IntendedArgs(e.args)|, e.f, Length(e.args), stack, m, EvalArgs(e.args, m, sys), sys);
  }

  // ---- whole programs ----

  lemma {:induction false} GeneratesProgram(es: Exprs)
    ensures var code := ProgramCode(TypeCheck(Chain(es), false));
      if AllWellTyped(es) then code == IntendedProgram(es) else |code| < |IntendedProgram(es)|
  {
    if es.More? {
      TreeShape(es.head, Chain(es.tail), false);
      GeneratesIntended(es.head);
      GeneratesProgram(es.tail);
      var n := TypeCheck(Chain(es), false);
      assert Cut(n) == TypeCheck(Tree(es.head, Null), false);
      assert n.sibling == TypeCheck(Chain(es.tail), false);
      assert n.sibling.Null? <==> es.tail.NoExpr?;
      assert ProgramCode(n) == StatementCode(n) + ProgramCode(n.sibling);
    }
  }

  /** The cleared rest of the segment does nothing. */
  lemma {:induction false} RunCleared(text: seq<byte>, pc: nat, stack: seq<word>, m: Memory, sys: SysCalls)
    requires pc <= |text| && forall i :: pc <= i < |text| ==> text[i] == OP_NOOP
    ensures Run(text, At(pc, stack, m), sys) == At(|text|, stack, m)
    decreases |text| - pc
  {
    if pc < |text| {
      assert text[pc..pc + 1] == [OP_NOOP];
      RunOperation(text, pc, OP_NOOP, stack, m, sys);
      RunCleared(text, pc + 1, stack, m, sys);
    }
  }

  lemma {:induction false} RunProgram(es: Exprs, text: seq<byte>, pc: nat, m: Memory, sys: SysCalls)
    requires es.More? && Holds(text, pc, IntendedProgram(es)) && |text| <= TEXT_MAX && ProgramDepth(es) <= STACK_MAX
    ensures Computes(text, pc, pc + |IntendedProgram(es)|, [], m, EvalProgram(es, m, sys), sys)
    decreases es
  {
    var c := Intended(es.head);
    if es.tail.NoExpr? {
      RunIntended(es.head, text, pc, [], m, sys);
    } else {
      HoldsParts(text, pc, c + [OP_POP], IntendedProgram(es.tail));
      HoldsParts(text, pc, c, [OP_POP]);
      RunIntended(es.head, text, pc, [], m, sys);
      var o := Eval(es.head, m, sys);
      if o.Done? {
        RunPop(text, pc + |c|, [], o.value, o.mem, sys);
        RunProgram(es.tail, text, pc + |c| + 1, o.mem, sys);
      }
    }
  }

  /** Compiler correctness: running the segment compiled from a list of statements, to the
      end of the text, leaves exactly the value of the last statement on the stack and
      exactly the memory of evaluating the statements in order; it gets stuck exactly when
      that evaluation faults. */
  lemma {:induction false} CompilerCorrect(es: Exprs, m: Memory, sys: SysCalls)
    requires es.More? && AllWellTyped(es) && ProgramDepth(es) <= STACK_MAX
    requires |ProgramCode(TypeCheck(Chain(es), false))| <= TEXT_MAX
    ensures Run(Segment(ProgramCode(TypeCheck(Chain(es), false))), At(0, [], m), sys)
         == match EvalProgram(es, m, sys)
            case Fault => Stuck
            case Done(v, m1) => At(TEXT_MAX, [v], m1)
  {
    var code := ProgramCode(TypeCheck(Chain(es), false));
    var text := Segment(code);
    GeneratesProgram(es);
    assert text[0..0 + |code|] == code;
    RunProgram(es, text, 0, m, sys);
    var o := EvalProgram(es, m, sys);
    if o.Done? {
      RunCleared(text, |code|, [o.value], o.mem, sys);
      assert [] + [o.value] == [o.value];
    }
  }

  /** The condition is the exact one: the emitted bytes are those of the intended program if
      and only if no operator has a call as its leftmost operand. */
  lemma {:induction false} IntendedExactly(es: Exprs)
    ensures ProgramCode(TypeCheck(Chain(es), false)) == IntendedProgram(es) <==> AllWellTyped(es)
  {
    GeneratesProgram(es);
  }

  /** Why the condition is needed: a binary operator on a call is silently dropped, and both
      operands stay on the stack. */
  lemma {:induction false} DroppedOperator(op: BinOp, l: Expr, r: Expr, text: seq<byte>, pc: nat, stack: seq<word>,
      m: Memory, sys: SysCalls)
    requires WellTyped(l) && WellTyped(r) && TypeOf(l) == Void && |text| <= TEXT_MAX
    requires Holds(text, pc, Generated(Bin(op, l, r))) && |stack| + Depth(Bin(op, l, r)) <= STACK_MAX
    requires Eval(l, m, sys).Done? && Eval(r, Eval(l, m, sys).mem, sys).Done?
    ensures var x := Eval(l, m, sys); var y := Eval(r, x.mem, sys);
      Run(text, At(pc, stack, m), sys)
        == Run(text, At(pc + |Generated(Bin(op, l, r))|, stack + [x.value] + [y.value], y.mem), sys)
  {
    GeneratedBin(op, l, r);
    GeneratesIntended(l);
    GeneratesIntended(r);
    var c, d := Intended(l), Intended(r);
    assert Generated(Bin(op, l, r)) == c + d;
    HoldsParts(text, pc, c, d);
    var x := Eval(l, m, sys);
    RunIntended(l, text, pc, stack, m, sys);
    RunIntended(r, text, pc + |c|, stack + [x.value], x.mem, sys);
  }
}
