/** The finsh code generator: type annotation of the child/sibling syntax tree and
    post-order emission of byte code into the text segment. */
module FinshCompiler {
  import opened FinshMachine

  datatype DataType = Void | Dword

  /** What an identifier node refers to. Variables and system variables are the
      double-word ones. */
  datatype Symbol = Var(addr: word) | SysVar(addr: word) | SysFunc(func: word)

  datatype Kind =
    | Id(sym: Symbol)
    | Value(v: word)
    | Arith(op: BinOp)
    | Bitwise
    | Func
    | Assign
    | PreInc | PreDec | Inc | Dec
    | GetValue
    | GetAddr

  /** A syntax tree node: `addr` is the address attribute, `child` the first operand and
      `sibling` the next operand of the parent. */
  datatype Node = Null | Node(kind: Kind, addr: bool, dataType: DataType, child: Node, sibling: Node)

  function Siblings(n: Node): nat {
    if n.Null? then 0 else 1 + Siblings(n.sibling)
  }

  // ---- finsh_type_check ----

  function ChildAddress(kind: Kind, isAddr: bool): bool {
    match kind
    case Assign | PreInc | PreDec | GetAddr => true
    case GetValue => false
    case _ => isAddr
  }

  function LeafType(kind: Kind, before: DataType): DataType {
    match kind
    case Id(SysFunc(_)) => before
    case Id(_) => Dword
    case Value(_) => Dword
    case _ => before
  }

  function TypeCheck(n: Node, isAddr: bool): (r: Node)
    ensures r.Null? <==> n.Null?
    ensures n.Node? ==> r.kind == n.kind
    ensures Siblings(r) == Siblings(n)
  {
    if n.Null? then n
    else
      var child := TypeCheck(n.child, ChildAddress(n.kind, isAddr));
      var sibling := TypeCheck(n.sibling, false);
      var addr := n.addr || (isAddr && !(n.kind.Id? && n.kind.sym.SysFunc?));
      var dataType := if child.Node? then child.dataType else LeafType(n.kind, n.dataType);
      Node(n.kind, addr, dataType, child, sibling)
  }

  // ---- finsh_compile ----

  function LdDword(v: word): seq<byte> { [OP_LD_DWORD] + Set32(v) }
  function LdValueDword(v: word): seq<byte> { [OP_LD_VALUE_DWORD] + Set32(v) }

  function IdCode(sym: Symbol, addr: bool): seq<byte> {
    match sym
    case SysFunc(f) => LdDword(f)
    case _ => if addr then LdDword(sym.addr) else LdValueDword(sym.addr)
  }

  function IncrementCode(a: word, op: BinOp, last: byte): seq<byte> {
    LdValueDword(a) + LdDword(1) + [OpCode(op)] + [OP_ST_DWORD, last]
  }

  function PreCode(a: word, op: BinOp): seq<byte> { IncrementCode(a, op, OP_LD_VALUE_DWORD_STACK) }

  function PostCode(a: word, op: BinOp): seq<byte> { LdDword(a) + IncrementCode(a, op, OP_POP) }

  /** Only plain variables are incremented: `id.var` is read whatever the symbol is. */
  predicate IsVar(n: Node) { n.Node? && n.kind.Id? && n.kind.sym.Var? }

  /** Code of one node, after its operands. An operator whose data type is not the
      double word emits nothing. */
  function OperatorCode(kind: Kind, addr: bool, dataType: DataType, child: Node): seq<byte> {
    match kind
    case Id(sym) => IdCode(sym, addr)
    case Value(v) => LdDword(v)
    case Arith(op) => if dataType == Dword then [OpCode(op)] else []
    case Bitwise => if dataType == Dword then [OP_BITWISE_DWORD] else []
    case Func => if child.Null? then [] else [OP_SYSCALL, (Siblings(child) - 1) % 0x100]
    case Assign =>
      if child.Node? && (child.kind.Id? || child.kind.GetValue?) && child.dataType == Dword
      then [OP_ST_DWORD, OP_LD_VALUE_DWORD_STACK] else []
    case PreInc => if IsVar(child) && dataType == Dword then PreCode(child.kind.sym.addr, Add) else []
    case PreDec => if IsVar(child) && dataType == Dword then PreCode(child.kind.sym.addr, Sub) else []
    case Inc => if IsVar(child) && dataType == Dword then PostCode(child.kind.sym.addr, Add) else []
    case Dec => if IsVar(child) && dataType == Dword then PostCode(child.kind.sym.addr, Sub) else []
    case GetValue => if !addr && dataType == Dword then [OP_LD_VALUE_DWORD_STACK] else []
    case GetAddr => []
  }

  function OwnCode(n: Node): seq<byte>
    requires n.Node?
  {
    OperatorCode(n.kind, n.addr, n.dataType, n.child)
  }

  function Code(n: Node): seq<byte> {
    if n.Null? then [] else Code(n.child) + OwnCode(n) + Code(n.sibling)
  }

  /** Cutting the sibling link, as the driver loop does before compiling a statement. */
  function Cut(n: Node): Node
    requires n.Node?
  {
    n.(sibling := Null)
  }

  /** Each statement leaves one value, popped before the next statement. */
  function StatementCode(n: Node): seq<byte>
    requires n.Node?
  {
    Code(Cut(n)) + if n.sibling.Null? then [] else [OP_POP]
  }

  function ProgramCode(n: Node): seq<byte> {
    if n.Null? then [] else StatementCode(n) + ProgramCode(n.sibling)
  }

  /** A text segment holding `code`, the rest cleared. */
  function Segment(code: seq<byte>): (r: seq<byte>)
    requires |code| <= TEXT_MAX
    ensures |r| == TEXT_MAX
  {
    code + seq(TEXT_MAX - |code|, _ => 0)
  }

  /** Segment `t1` with pointer `p1` is `t0` with `c` written at `p0`. */
  ghost predicate Extends(t0: seq<byte>, p0: nat, t1: seq<byte>, p1: nat, c: seq<byte>) {
    && |t0| == |t1| && p1 == p0 + |c| <= |t1|
    && t1[..p0] == t0[..p0]
    && t1[p0..p1] == c
    && t1[p1..] == t0[p1..]
  }

  lemma ExtendsTwice(t0: seq<byte>, p0: nat, t1: seq<byte>, p1: nat, t2: seq<byte>, p2: nat, c: seq<byte>, d: seq<byte>)
    requires Extends(t0, p0, t1, p1, c) && Extends(t1, p1, t2, p2, d)
    ensures Extends(t0, p0, t2, p2, c + d)
  {
    assert t2[..p0] == t2[..p1][..p0];
    assert t2[p0..p1] == t2[..p1][p0..];
    assert t2[p0..p2] == t2[p0..p1] + t2[p1..p2];
    assert t1[p2..] == t1[p1..][p2 - p1..];
  }

  /** The text segment and the code pointer. Writing past the segment is undefined in the
      source, so every emitting method requires the room it uses. */
  class Compiler {
    const text: array<byte>
    var pc: nat

    ghost predicate Valid()
      reads this
    {
      text.Length == TEXT_MAX && pc <= TEXT_MAX
    }

    constructor ()
      ensures Valid() && pc == 0 && fresh(text)
    {
      text := new byte[TEXT_MAX](_ => 0);
      pc := 0;
    }

    /** The call appended exactly `c`. */
    twostate predicate Emitted(c: seq<byte>)
      reads this, text
    {
      Valid() && Extends(old(text[..]), old(pc), text[..], pc, c)
    }

    method CodeByte(x: byte)
      requires Valid() && pc < TEXT_MAX
      modifies this`pc, text
      ensures Emitted([x])
    {
      text[pc] := x;
      pc := pc + 1;
    }

    method CodeDword(x: word)
      requires Valid() && pc + 4 <= TEXT_MAX
      modifies this`pc, text
      ensures Emitted(Set32(x))
    {
      text[pc] := x % 0x100;
      text[pc + 1] := x / 0x100 % 0x100;
      text[pc + 2] := x / 0x1_0000 % 0x100;
      text[pc + 3] := x / 0x100_0000;
      pc := pc + 4;
    }

    method CodeLoad(op: byte, x: word)
      requires Valid() && pc + 5 <= TEXT_MAX
      modifies this`pc, text
      ensures Emitted([op] + Set32(x))
    {
      CodeByte(op);
      ghost var t1, p1 := text[..], pc;
      CodeDword(x);
      ExtendsTwice(old(text[..]), old(pc), t1, p1, text[..], pc, [op], Set32(x));
    }

    method CodeTwo(x: byte, y: byte)
      requires Valid() && pc + 2 <= TEXT_MAX
      modifies this`pc, text
      ensures Emitted([x, y])
    {
      CodeByte(x);
      ghost var t1, p1 := text[..], pc;
      CodeByte(y);
      ExtendsTwice(old(text[..]), old(pc), t1, p1, text[..], pc, [x], [y]);
      assert [x] + [y] == [x, y];
    }

    /** ld_value_dword a; ld_dword 1; op; st_dword; last */
    method CodeIncrement(a: word, op: BinOp, last: byte)
      requires Valid() && pc + 13 <= TEXT_MAX
      modifies this`pc, text
      ensures Emitted(IncrementCode(a, op, last))
    {
      CodeLoad(OP_LD_VALUE_DWORD, a);
      ghost var t1, p1 := text[..], pc;
      CodeLoad(OP_LD_DWORD, 1);
      ExtendsTwice(old(text[..]), old(pc), t1, p1, text[..], pc, LdValueDword(a), LdDword(1));
      t1, p1 := text[..], pc;
      CodeByte(OpCode(op));
      ExtendsTwice(old(text[..]), old(pc), t1, p1, text[..], pc, LdValueDword(a) + LdDword(1), [OpCode(op)]);
      t1, p1 := text[..], pc;
      CodeTwo(OP_ST_DWORD, last);
      ExtendsTwice(old(text[..]), old(pc), t1, p1, text[..], pc, LdValueDword(a) + LdDword(1) + [OpCode(op)],
        [OP_ST_DWORD, last]);
    }

    method CodePostIncrement(a: word, op: BinOp)
      requires Valid() && pc + 18 <= TEXT_MAX
      modifies this`pc, text
      ensures Emitted(PostCode(a, op))
    {
      CodeLoad(OP_LD_DWORD, a);
      ghost var t1, p1 := text[..], pc;
      CodeIncrement(a, op, OP_POP);
      ExtendsTwice(old(text[..]), old(pc), t1, p1, text[..], pc, LdDword(a), IncrementCode(a, op, OP_POP));
    }

    method CodeCall(child: Node)
      requires Valid() && child.Node? && pc + 2 <= TEXT_MAX
      modifies this`pc, text
      ensures Emitted([OP_SYSCALL, (Siblings(child) - 1) % 0x100])
    {
      var parameters, sibling := 0, child.sibling;
      while sibling.Node?
        invariant parameters + Siblings(sibling) == Siblings(child) - 1
        decreases sibling
      {
        parameters := parameters + 1;
        sibling := sibling.sibling;
      }
      CodeTwo(OP_SYSCALL, parameters % 0x100);
    }

    method CompileOwn(n: Node)
      requires Valid() && n.Node? && pc + |OwnCode(n)| <= TEXT_MAX
      modifies this`pc, text
      ensures Emitted(OwnCode(n))
    {
      match n.kind
      case Id(sym) =>
        if sym.SysFunc? {
          CodeLoad(OP_LD_DWORD, sym.func);
        } else {
          CodeLoad(if n.addr then OP_LD_DWORD else OP_LD_VALUE_DWORD, sym.addr);
        }
      case Value(v) => CodeLoad(OP_LD_DWORD, v);
      case Arith(op) => if n.dataType == Dword { CodeByte(OpCode(op)); }
      case Bitwise => if n.dataType == Dword { CodeByte(OP_BITWISE_DWORD); }
      case Func => if n.child.Node? { CodeCall(n.child); }
      case Assign =>
        if n.child.Node? && (n.child.kind.Id? || n.child.kind.GetValue?) && n.child.dataType == Dword {
          CodeTwo(OP_ST_DWORD, OP_LD_VALUE_DWORD_STACK);
        }
      case PreInc =>
        if IsVar(n.child) && n.dataType == Dword { CodeIncrement(n.child.kind.sym.addr, Add, OP_LD_VALUE_DWORD_STACK); }
      case PreDec =>
        if IsVar(n.child) && n.dataType == Dword { CodeIncrement(n.child.kind.sym.addr, Sub, OP_LD_VALUE_DWORD_STACK); }
      case Inc => if IsVar(n.child) && n.dataType == Dword { CodePostIncrement(n.child.kind.sym.addr, Add); }
      case Dec => if IsVar(n.child) && n.dataType == Dword { CodePostIncrement(n.child.kind.sym.addr, Sub); }
      case GetValue => if !n.addr && n.dataType == Dword { CodeByte(OP_LD_VALUE_DWORD_STACK); }
      case GetAddr =>
    }

    method Compile(n: Node)
      requires Valid() && pc + |Code(n)| <= TEXT_MAX
      modifies this`pc, text
      ensures Emitted(Code(n))
      decreases n
    {
      if n.Node? {
        Compile(n.child);
        ghost var t1, p1 := text[..], pc;
        CompileOwn(n);
        ExtendsTwice(old(text[..]), old(pc), t1, p1, text[..], pc, Code(n.child), OwnCode(n));
        t1, p1 := text[..], pc;
        Compile(n.sibling);
        ExtendsTwice(old(text[..]), old(pc), t1, p1, text[..], pc, Code(n.child) + OwnCode(n), Code(n.sibling));
      }
    }

    method CompileStatement(n: Node)
      requires Valid() && n.Node? && pc + |StatementCode(n)| <= TEXT_MAX
      modifies this`pc, text
      ensures Emitted(StatementCode(n))
    {
      Compile(Cut(n));
      ghost var t1, p1 := text[..], pc;
      if n.sibling.Node? {
        CodeByte(OP_POP);
        ExtendsTwice(old(text[..]), old(pc), t1, p1, text[..], pc, Code(Cut(n)), [OP_POP]);
      }
    }

    /** finsh_compiler_run: the segment ends up holding the program, zero-filled. */
    method CompilerRun(root: Node)
      requires Valid() && |ProgramCode(TypeCheck(root, false))| <= TEXT_MAX
      modifies this`pc, text
      ensures Valid() && text[..] == Segment(ProgramCode(TypeCheck(root, false)))
    {
      hide StatementCode, TypeCheck;
      var sibling := TypeCheck(root, false);
      ghost var code := ProgramCode(sibling);
      forall i | 0 <= i < text.Length { text[i] := 0; }
      pc := 0;
      ghost var clean, emitted := text[..], [];
      while sibling.Node?
        invariant Valid() && Extends(clean, 0, text[..], pc, emitted)
        invariant emitted + ProgramCode(sibling) == code
        decreases sibling
      {
        var current := sibling;
        sibling := current.sibling;
        ghost var t1, p1 := text[..], pc;
        assert ProgramCode(current) == StatementCode(current) + ProgramCode(sibling);
        CompileStatement(current);
        ExtendsTwice(clean, 0, t1, p1, text[..], pc, emitted, StatementCode(current));
        emitted := emitted + StatementCode(current);
      }
      assert text[..] == text[0..pc] + text[pc..];
    }
  }
}
