/** The finsh interpreter working in place on its stack array. */
module FinshVm {
  import opened FinshMachine
  import opened FinshCompiler
  import opened FinshLanguage
  import opened FinshArithmetic
  import FinshCorrect

  class Vm {
    const text: array<byte>
    const stack: array<word>
    const sys: SysCalls
    var sp: nat
    var pc: nat
    var mem: Memory
    /** Set when the source would leave the stack, the text or the mapped memory. */
    var stuck: bool

    ghost predicate Valid()
      reads this
    {
      text.Length == TEXT_MAX && stack.Length == STACK_MAX && sp <= STACK_MAX && pc <= TEXT_MAX
    }

    /** Cells at and above `sp` are dead. */
    ghost function Model(): State
      requires Valid()
      reads this, stack
    {
      if stuck then Stuck else At(pc, stack[..sp], mem)
    }

    constructor (text: array<byte>, sys: SysCalls, mem: Memory)
      requires text.Length == TEXT_MAX
      ensures Valid() && this.text == text && this.sys == sys && this.mem == mem && fresh(stack)
      ensures Model() == At(0, [], mem)
    {
      this.text := text;
      this.sys := sys;
      this.mem := mem;
      stack := new word[STACK_MAX](_ => 0);
      sp := 0;
      pc := 0;
      stuck := false;
    }

    method Push(v: word)
      requires Valid() && !stuck
      modifies this`sp, this`stuck, stack
      ensures Valid() && Model() == FinshMachine.Push(pc, old(stack[..sp]), v, mem)
    {
      if sp < STACK_MAX {
        stack[sp] := v;
        sp := sp + 1;
      } else {
        stuck := true;
      }
    }

    method DoBinary(op: BinOp)
      requires Valid() && !stuck
      modifies this`sp, this`stuck, stack
      ensures Valid() && Model() == Operation(text[..], Binary(op), pc, old(stack[..sp]), mem, sys)
      ensures stuck <==> !(old(sp) >= 2 && Defined(op, old(stack[..])[old(sp) - 2], old(stack[..])[old(sp) - 1]))
      ensures !stuck ==>
        && sp == old(sp) - 1
        && Means(op, old(stack[..])[old(sp) - 2], old(stack[..])[old(sp) - 1], stack[sp - 1])
    {
      if sp < 2 || !Defined(op, stack[sp - 2], stack[sp - 1]) { stuck := true; return; }
      ApplyMeans(op, stack[sp - 2], stack[sp - 1]);
      stack[sp - 2] := Apply(op, stack[sp - 2], stack[sp - 1]);
      sp := sp - 1;
    }

    /** OP_call: pop the parameters, call, replace the callee by the result. */
    method DoCall()
      requires Valid() && !stuck && pc < TEXT_MAX
      modifies this, stack
      ensures Valid() && Model() == Call(sys, old(pc) + 1, old(stack[..sp]), text[old(pc)], old(mem))
    {
      ghost var s := stack[..sp];
      var parameters := text[pc];
      pc := pc + 1;
      if parameters > 16 || sp < parameters + 1 { stuck := true; return; }
      sp := sp - 1;
      var i := 0;
      var parameterv: seq<word> := [];
      while i < parameters
        invariant 0 <= i <= parameters <= 16 && sp == old(sp) - 1 - i
        invariant parameterv == s[sp + 1..]
        invariant stack[..] == old(stack[..]) && pc == old(pc) + 1 && !stuck && mem == old(mem)
      {
        assert s[sp..] == [stack[sp]] + s[sp + 1..];
        parameterv := [stack[sp]] + parameterv;
        sp := sp - 1;
        i := i + 1;
      }
      var r := sys(stack[sp], CallArgs(parameterv), mem);
      if r.Fault? { stuck := true; return; }
      mem := r.mem;
      stack[sp] := r.value;
      sp := sp + 1;
      assert stack[..sp] == s[..sp - 1] + [r.value];
    }

    /** The operation table entry for `i`. */
    method DoOperation(i: Instruction)
      requires Valid() && !stuck
      modifies this, stack
      ensures Valid() && Model() == Operation(text[..], i, old(pc), old(stack[..sp]), old(mem), sys)
    {
      match i
      case Noop =>
      case Binary(op) =>
        DoBinary(op);
      case Complement =>
        if sp < 1 { stuck := true; return; }
        stack[sp - 1] := BitNot(stack[sp - 1]);
      case PushConst =>
        if pc + 4 > TEXT_MAX { stuck := true; return; }
        pc := pc + 4;
        Push(Get32(text[pc - 4..pc]));
      case PushValue =>
        if pc + 4 > TEXT_MAX { stuck := true; return; }
        pc := pc + 4;
        var a := Get32(text[pc - 4..pc]);
        if !Mapped(mem, a) { stuck := true; return; }
        Push(Load(mem, a));
      case StoreTop =>
        if sp < 2 || !Mapped(mem, stack[sp - 2]) { stuck := true; return; }
        mem := Store(mem, stack[sp - 2], stack[sp - 1]);
        sp := sp - 1;
      case Drop =>
        if sp < 1 { stuck := true; return; }
        sp := sp - 1;
      case SysCall =>
        if pc >= TEXT_MAX { stuck := true; return; }
        DoCall();
      case LoadTop =>
        if sp < 1 || !Mapped(mem, stack[sp - 1]) { stuck := true; return; }
        stack[sp - 1] := Load(mem, stack[sp - 1]);
      case Unmodelled => stuck := true;
    }

    /** finsh_vm_run */
    method Run()
      requires Valid()
      modifies this, stack
      ensures Valid() && Model() == FinshMachine.Run(text[..], At(0, [], old(mem)), sys)
    {
      sp, pc, stuck := 0, 0, false;
      ghost var start := Model();
      while !stuck && pc < TEXT_MAX
        invariant Valid() && FinshMachine.Run(text[..], Model(), sys) == FinshMachine.Run(text[..], start, sys)
        decreases !stuck, TEXT_MAX - pc
      {
        var op := text[pc];
        ghost var s := Model();
        pc := pc + 1;
        DoOperation(Decode(op));
        assert FinshMachine.Run(text[..], s, sys) == Execute(text[..], Decode(op), s.pc + 1, s.stack, s.mem, sys);
      }
    }
  }

  /** Compile and execute a line, as the shell does: the bottom cell of the stack holds the
      value of the last statement, and the data memory is that of the evaluation. */
  method RunLine(es: Exprs, sys: SysCalls, mem: Memory) returns (result: Outcome)
    requires es.More? && AllWellTyped(es) && ProgramDepth(es) <= STACK_MAX
    requires |ProgramCode(TypeCheck(Chain(es), false))| <= TEXT_MAX
    ensures result == EvalProgram(es, mem, sys)
  {
    var compiler := new Compiler();
    compiler.CompilerRun(Chain(es));
    var vm := new Vm(compiler.text, sys, mem);
    vm.Run();
    FinshCorrect.CompilerCorrect(es, mem, sys);
    if vm.stuck { return Fault; }
    assert vm.Model().stack == vm.stack[..vm.sp];
    return Done(vm.stack[0], vm.mem);
  }
}
