/** The finsh virtual machine: 32-bit words, a byte-addressed data memory, a 64-cell
    operand stack and a 128-byte text segment. */
module FinshMachine {
  import opened Bits
  import opened Powers

  type byte = x: int | 0 <= x < 0x100
  type word = x: int | 0 <= x < 0x1_0000_0000

  const TEXT_MAX: nat := 128
  const STACK_MAX: nat := 64

  /** Data memory. An access to an unmapped byte faults. The text segment and the operand
      stack are not part of it. */
  type Memory = map<word, byte>

  /** What evaluating something yields: a value and the new memory, or a fault. */
  datatype Outcome = Fault | Done(value: word, mem: Memory)

  /** System calls: callee address, arguments, memory. */
  type SysCalls = (word, seq<word>, Memory) -> Outcome

  // ---- little-endian operands ----

  function Set32(v: word): (r: seq<byte>)
    ensures |r| == 4
  {
    [v % 0x100, v / 0x100 % 0x100, v / 0x1_0000 % 0x100, v / 0x100_0000]
  }

  function Word32(b0: byte, b1: byte, b2: byte, b3: byte): word {
    b0 + b1 * 0x100 + b2 * 0x1_0000 + b3 * 0x100_0000
  }

  function Get32(s: seq<byte>): word
    requires |s| == 4
  {
    Word32(s[0], s[1], s[2], s[3])
  }

  /** Reading back an encoded operand gives the operand. */
  lemma OperandRoundTrip(v: word)
    ensures Get32(Set32(v)) == v
  {
    assert v / 0x1_0000 == v / 0x100 / 0x100 && v / 0x100_0000 == v / 0x1_0000 / 0x100;
  }

  // ---- memory ----

  /** Address `i` bytes further on; addresses wrap around. */
  function Offset(a: word, i: int): word { (a + i) % 0x1_0000_0000 }

  predicate Mapped(m: Memory, a: word) {
    a in m && Offset(a, 1) in m && Offset(a, 2) in m && Offset(a, 3) in m
  }

  function Load(m: Memory, a: word): word
    requires Mapped(m, a)
  {
    Word32(m[a], m[Offset(a, 1)], m[Offset(a, 2)], m[Offset(a, 3)])
  }

  function Store(m: Memory, a: word, v: word): Memory
    requires Mapped(m, a)
  {
    var b := Set32(v);
    m[a := b[0]][Offset(a, 1) := b[1]][Offset(a, 2) := b[2]][Offset(a, 3) := b[3]]
  }

  /** A stored word is read back unchanged, every other byte keeps its contents and nothing
      becomes mapped or unmapped. */
  lemma LoadAfterStore(m: Memory, a: word, v: word)
    requires Mapped(m, a)
    ensures Mapped(Store(m, a, v), a) && Load(Store(m, a, v), a) == v
    ensures Store(m, a, v).Keys == m.Keys
    ensures forall b :: b in m && b !in {a, Offset(a, 1), Offset(a, 2), Offset(a, 3)} ==> Store(m, a, v)[b] == m[b]
  {
    OperandRoundTrip(v);
  }

  // ---- signed 32-bit arithmetic ----

  datatype BinOp = Add | Sub | Mul | Div | Mod | And | Or | Xor | Shl | Shr

  function Signed(v: word): int {
    if v < 0x8000_0000 then v else v - 0x1_0000_0000
  }

  function Wrap(n: int): word {
    n % 0x1_0000_0000
  }

  /** C's division rounds toward zero. */
  function TruncDiv(a: int, b: int): int
    requires b != 0
  {
    var q := (if a < 0 then -a else a) / (if b < 0 then -b else b);
    if (a < 0) == (b < 0) then q else -q
  }

  /** Whether C defines the operation on these operands. */
  predicate Defined(op: BinOp, a: word, b: word) {
    match op
    case Div | Mod => b != 0 && !(a == 0x8000_0000 && b == 0xffff_ffff)
    case Shl | Shr => b < 32
    case _ => true
  }

  function Apply(op: BinOp, a: word, b: word): word
    requires Defined(op, a, b)
  {
    match op
    case Add => Wrap(a + b)
    case Sub => Wrap(a - b)
    case Mul => Wrap(a * b)
    case Div => Wrap(TruncDiv(Signed(a), Signed(b)))
    case Mod => Wrap(Signed(a) - TruncDiv(Signed(a), Signed(b)) * Signed(b))
    case And => Bits.And(a, b)
    case Or => (Power32(); OrRange(a, b, 32); Bits.Or(a, b))
    case Xor => (Power32(); XorRange(a, b, 32); Bits.Xor(a, b))
    case Shl => Wrap(a * Power2(b))
    case Shr => Wrap(Signed(a) / Power2(b))  // the sign is kept
  }

  function BitNot(a: word): word { 0xffff_ffff - a }

  // ---- opcodes ----

  const OP_NOOP: byte := 0x00
  const OP_ADD_DWORD: byte := 0x03
  const OP_SUB_DWORD: byte := 0x06
  const OP_DIV_DWORD: byte := 0x09
  const OP_MOD_DWORD: byte := 0x0c
  const OP_MUL_DWORD: byte := 0x0f
  const OP_AND_DWORD: byte := 0x12
  const OP_OR_DWORD: byte := 0x15
  const OP_XOR_DWORD: byte := 0x18
  const OP_BITWISE_DWORD: byte := 0x1b
  const OP_SHL_DWORD: byte := 0x1e
  const OP_SHR_DWORD: byte := 0x21
  const OP_LD_DWORD: byte := 0x24
  const OP_LD_VALUE_DWORD: byte := 0x27
  const OP_ST_DWORD: byte := 0x2a
  const OP_POP: byte := 0x2b
  const OP_SYSCALL: byte := 0x2c
  const OP_LD_VALUE_DWORD_STACK: byte := 0x2f

  function OpCode(op: BinOp): byte {
    match op
    case Add => OP_ADD_DWORD
    case Sub => OP_SUB_DWORD
    case Mul => OP_MUL_DWORD
    case Div => OP_DIV_DWORD
    case Mod => OP_MOD_DWORD
    case And => OP_AND_DWORD
    case Or => OP_OR_DWORD
    case Xor => OP_XOR_DWORD
    case Shl => OP_SHL_DWORD
    case Shr => OP_SHR_DWORD
  }

  datatype Instruction =
    | Noop
    | Binary(op: BinOp)
    | Complement
    | PushConst
    | PushValue
    | StoreTop
    | Drop
    | SysCall
    | LoadTop
    | Unmodelled

  /** The operation table, restricted to the double-word entries. */
  function Decode(b: byte): Instruction {
    if b == OP_NOOP then Noop
    else if b == OP_ADD_DWORD then Binary(Add)
    else if b == OP_SUB_DWORD then Binary(Sub)
    else if b == OP_DIV_DWORD then Binary(Div)
    else if b == OP_MOD_DWORD then Binary(Mod)
    else if b == OP_MUL_DWORD then Binary(Mul)
    else if b == OP_AND_DWORD then Binary(And)
    else if b == OP_OR_DWORD then Binary(Or)
    else if b == OP_XOR_DWORD then Binary(Xor)
    else if b == OP_BITWISE_DWORD then Complement
    else if b == OP_SHL_DWORD then Binary(Shl)
    else if b == OP_SHR_DWORD then Binary(Shr)
    else if b == OP_LD_DWORD then PushConst
    else if b == OP_LD_VALUE_DWORD then PushValue
    else if b == OP_ST_DWORD then StoreTop
    else if b == OP_POP then Drop
    else if b == OP_SYSCALL then SysCall
    else if b == OP_LD_VALUE_DWORD_STACK then LoadTop
    else Unmodelled
  }

  // ---- execution ----

  /** Machine states between two operations. Any access outside the text, the stack or the
      mapped memory, and any operation C leaves undefined, leads to `Stuck`. */
  datatype State = Stuck | At(pc: nat, stack: seq<word>, mem: Memory)

  function Push(pc: nat, stack: seq<word>, v: word, mem: Memory): State {
    if |stack| < STACK_MAX then At(pc, stack + [v], mem) else Stuck
  }

  /** Arguments handed to a callee: with no parameter the machine passes a single 0. */
  function CallArgs(args: seq<word>): seq<word> {
    if args == [] then [0] else args
  }

  function Call(sys: SysCalls, pc: nat, stack: seq<word>, n: nat, mem: Memory): State {
    if n > 16 || |stack| < n + 1 then Stuck
    else
      var base := |stack| - n - 1;
      match sys(stack[base], CallArgs(stack[base + 1..]), mem)
      case Fault => Stuck
      case Done(v, m) => At(pc, stack[..base] + [v], m)
  }

  /** One operation: the opcode at `pc` has been fetched and `pc` points behind it. */
  function Operation(text: seq<byte>, i: Instruction, pc: nat, stack: seq<word>, mem: Memory, sys: SysCalls): (r: State)
    requires pc <= |text|
    ensures r.At? ==> pc <= r.pc <= |text|
  {
    var n := |stack|;
    match i
    case Noop => At(pc, stack, mem)
    case Binary(op) =>
      if n < 2 || !Defined(op, stack[n - 2], stack[n - 1]) then Stuck
      else At(pc, stack[..n - 2] + [Apply(op, stack[n - 2], stack[n - 1])], mem)
    case Complement => if n < 1 then Stuck else At(pc, stack[..n - 1] + [BitNot(stack[n - 1])], mem)
    case PushConst => if pc + 4 > |text| then Stuck else Push(pc + 4, stack, Get32(text[pc..pc + 4]), mem)
    case PushValue =>
      if pc + 4 > |text| || !Mapped(mem, Get32(text[pc..pc + 4])) then Stuck
      else Push(pc + 4, stack, Load(mem, Get32(text[pc..pc + 4])), mem)
    case StoreTop =>
      if n < 2 || !Mapped(mem, stack[n - 2]) then Stuck
      else At(pc, stack[..n - 1], Store(mem, stack[n - 2], stack[n - 1]))
    case Drop => if n < 1 then Stuck else At(pc, stack[..n - 1], mem)
    case SysCall => if pc + 1 > |text| then Stuck else Call(sys, pc + 1, stack, text[pc], mem)
    case LoadTop =>
      if n < 1 || !Mapped(mem, stack[n - 1]) then Stuck
      else At(pc, stack[..n - 1] + [Load(mem, stack[n - 1])], mem)
    case Unmodelled => Stuck
  }

  /** Running from `s` to the end of the text: fetch an opcode, execute its operation, repeat. */
  function Run(text: seq<byte>, s: State, sys: SysCalls): (r: State)
    ensures r.At? && s.At? && s.pc <= |text| ==> r.pc == |text|
    decreases if s.At? && s.pc <= |text| then |text| - s.pc else 0, 2
  {
    if s.Stuck? || s.pc >= |text| then s else Fetch(text, s, sys)
  }

  function Fetch(text: seq<byte>, s: State, sys: SysCalls): (r: State)
    requires s.At? && s.pc < |text|
    ensures r.At? ==> r.pc == |text|
    decreases |text| - s.pc, 1
  {
    Execute(text, Decode(text[s.pc]), s.pc + 1, s.stack, s.mem, sys)
  }

  function Execute(text: seq<byte>, i: Instruction, pc: nat, stack: seq<word>, mem: Memory, sys: SysCalls): (r: State)
    requires pc <= |text|
    ensures r.At? ==> r.pc == |text|
    decreases |text| - pc, 3
  {
    Run(text, Operation(text, i, pc, stack, mem, sys), sys)
  }
}
