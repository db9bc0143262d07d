/** The finsh stack machine: opcodes of finsh_ops.h, operations of finsh_ops.c and the
    fetch/execute loop of finsh_vm.c.  */
module FinshVm {
  import opened Machine
  import opened FinshAlu

  datatype Width = W8 | W16 | W32

  datatype Instr =
    | Nop
    | Alu(op: AluOp, w: Width)
    | Not(w: Width)
    | Ld(w: Width)
    | LdValue(w: Width)
    | St(w: Width)
    | Pop
    | Syscall
    | LdValueStack(w: Width)
    | Bad

  function WidthIndex(w: Width): nat { match w case W8 => 0 case W16 => 1 case W32 => 2 }

  function AluBase(op: AluOp): Byte {
    match op
    case Add => 0x01 case Sub => 0x04 case Div => 0x07 case Mod => 0x0A case Mul => 0x0D
    case And => 0x10 case Or => 0x13 case Xor => 0x16 case Shl => 0x1C case Shr => 0x1F
  }

  /** The opcode numbers of finsh_ops.h. */
  function Opcode(i: Instr): Byte {
    match i
    case Nop => 0x00
    case Alu(op, w) => AluBase(op) + WidthIndex(w)
    case Not(w) => 0x19 + WidthIndex(w)
    case Ld(w) => 0x22 + WidthIndex(w)
    case LdValue(w) => 0x25 + WidthIndex(w)
    case St(w) => 0x28 + WidthIndex(w)
    case Pop => 0x2B
    case Syscall => 0x2C
    case LdValueStack(w) => 0x2D + WidthIndex(w)
    case Bad => 0xFF
  }

  function NthWidth(n: int): Width { if n == 0 then W8 else if n == 1 then W16 else W32 }

  /** The entry of op_table at index op; entries past the table are not operations. */
  function OpTable(op: Byte): Instr {
    if op == 0 then Nop
    else if op < 0x04 then Alu(Add, NthWidth(op - 0x01))
    else if op < 0x07 then Alu(Sub, NthWidth(op - 0x04))
    else if op < 0x0A then Alu(Div, NthWidth(op - 0x07))
    else if op < 0x0D then Alu(Mod, NthWidth(op - 0x0A))
    else if op < 0x10 then Alu(Mul, NthWidth(op - 0x0D))
    else if op < 0x13 then Alu(And, NthWidth(op - 0x10))
    else if op < 0x16 then Alu(Or, NthWidth(op - 0x13))
    else if op < 0x19 then Alu(Xor, NthWidth(op - 0x16))
    else if op < 0x1C then Not(NthWidth(op - 0x19))
    else if op < 0x1F then Alu(Shl, NthWidth(op - 0x1C))
    else if op < 0x22 then Alu(Shr, NthWidth(op - 0x1F))
    else if op < 0x25 then Ld(NthWidth(op - 0x22))
    else if op < 0x28 then LdValue(NthWidth(op - 0x25))
    else if op < 0x2B then St(NthWidth(op - 0x28))
    else if op == 0x2B then Pop
    else if op == 0x2C then Syscall
    else if op < 0x30 then LdValueStack(NthWidth(op - 0x2D))
    else Bad
  }

  /** op_table and the opcode numbers agree. */
  lemma OpTableInvertsOpcode(i: Instr)
    ensures OpTable(Opcode(i)) == i
  {
    match i
    case Alu(op, w) => match op { case Add => case Sub => case Div => case Mod => case Mul =>
                                  case And => case Or => case Xor => case Shl => case Shr => }
    case _ =>
  }

  /** What calling the C function at an address with some arguments returns and stores. */
  type System = (Word, seq<Word>, Memory) -> (Word, Memory)

  const MAX_ARGS := 16

  /** Program counter, the stack below finsh_sp, and memory. */
  datatype State = State(pc: nat, stack: seq<Word>, mem: Memory)

  datatype Outcome = Running(s: State) | Fault

  /** The operand dword that follows an opcode in the text segment. */
  function Operand(text: seq<Byte>, pc: nat): Word
    requires pc + 4 <= |text|
  {
    Word32(text[pc], text[pc + 1], text[pc + 2], text[pc + 3])
  }

  function Push(s: State, room: nat, n: nat, v: Word): Outcome {
    if |s.stack| < room then Running(State(s.pc + n, s.stack + [v], s.mem)) else Fault
  }

  /** One turn of the loop in finsh_vm_run.  Fault stands for the undefined behaviour of the C
      code: a stack slot or an operand outside its array, a zero divisor, an index past op_table.
      Byte and word operations are not modelled and fault as well. */
  function Step(text: seq<Byte>, s: State, room: nat, sys: System): Outcome
    requires s.pc < |text|
  {
    Perform(OpTable(text[s.pc]), text, s, room, sys)
  }

  function Perform(i: Instr, text: seq<Byte>, s: State, room: nat, sys: System): Outcome {
    var n := |s.stack|;
    var pc := s.pc + 1;
    match i
    case Nop => Running(s.(pc := pc))
    case Alu(op, W32) =>
      if n < 2 then Fault else
      var r := AluDword(op, s.stack[n - 2], s.stack[n - 1]);
      if r.None? then Fault else Running(State(pc, s.stack[..n - 2] + [r.value], s.mem))
    case Not(W32) =>
      if n < 1 then Fault else Running(State(pc, s.stack[..n - 1] + [Complement(s.stack[n - 1])], s.mem))
    case Ld(W32) =>
      if pc + 4 > |text| then Fault else Push(s, room, 5, Operand(text, pc))
    case LdValue(W32) =>
      if pc + 4 > |text| then Fault else Push(s, room, 5, LoadDword(s.mem, Operand(text, pc)))
    case St(W32) =>
      if n < 2 then Fault else
      Running(State(pc, s.stack[..n - 1], StoreDword(s.mem, s.stack[n - 2], s.stack[n - 1])))
    case Pop =>
      if n < 1 then Fault else Running(State(pc, s.stack[..n - 1], s.mem))
    case LdValueStack(W32) =>
      if n < 1 then Fault else Running(State(pc, s.stack[..n - 1] + [LoadDword(s.mem, s.stack[n - 1])], s.mem))
    case Syscall =>
      if pc >= |text| then Fault else
      var k := text[pc];
      if k > MAX_ARGS || n < k + 1 then Fault else
      var (r, m) := sys(s.stack[n - k - 1], s.stack[n - k..], s.mem);
      Running(State(pc + 1, s.stack[..n - k - 1] + [r], m))
    case _ => Fault
  }

  /** finsh_vm_run from a given state: execute until the program counter leaves the text segment. */
  function Exec(text: seq<Byte>, s: State, room: nat, sys: System): Outcome
    decreases |text| - s.pc
  {
    if s.pc >= |text| then Running(s) else
    match Step(text, s, room, sys)
    case Fault => Fault
    case Running(s') => if s'.pc <= s.pc then Fault else Exec(text, s', room, sys)
  }

  /** The machine itself: an array of stack slots, an array of code bytes, and memory. */
  class Vm {
    const text: array<Byte>
    const slots: array<Word>
    var sp: nat
    var pc: nat
    var mem: Memory

    ghost predicate Valid()
      reads this
    {
      sp <= slots.Length && (text as object) != (slots as object)
    }

    ghost function Model(): State
      requires Valid()
      reads this, slots
    {
      State(pc, slots[..sp], mem)
    }

    constructor (text: array<Byte>, stackMax: nat, mem: Memory)
      ensures Valid() && sp == 0 && pc == 0 && this.mem == mem
      ensures this.text == text && fresh(slots) && slots.Length == stackMax
    {
      this.text := text;
      this.slots := new Word[stackMax];
      this.sp, this.pc, this.mem := 0, 0, mem;
    }

    /** OP_add_dword .. OP_shr_dword. */
    method Binary(op: AluOp)
      requires Valid() && sp >= 2 && AluDword(op, slots[sp - 2], slots[sp - 1]).Some?
      modifies `sp, slots
      ensures Valid() && sp == old(sp) - 1
      ensures slots[..sp] == old(slots[..sp - 2]) + [AluDword(op, old(slots[sp - 2]), old(slots[sp - 1])).value]
      ensures Means(op, old(slots[sp - 2]), old(slots[sp - 1]), slots[sp - 1])
    {
      hide AluDword, Means;
      AluMeans(op, slots[sp - 2], slots[sp - 1]);
      var r := AluDword(op, slots[sp - 2], slots[sp - 1]);
      slots[sp - 2] := r.value;
      sp := sp - 1;
    }

    /** OP_bw_dword. */
    method Invert()
      requires Valid() && sp >= 1
      modifies slots
      ensures slots[..sp] == old(slots[..sp - 1]) + [Complement(old(slots[sp - 1]))]
      ensures Inverted(old(slots[sp - 1]), slots[sp - 1])
    {
      hide Complement, Inverted;
      ComplementMeans(slots[sp - 1]);
      slots[sp - 1] := Complement(slots[sp - 1]);
    }

    /** Replace the top of the stack: OP_ld_value_dword_stack. */
    method Replace(v: Word)
      requires Valid() && sp >= 1
      modifies slots
      ensures slots[..sp] == old(slots[..sp - 1]) + [v]
    {
      slots[sp - 1] := v;
    }

    /** OP_ld_dword, OP_ld_value_dword: push and skip the operand. */
    method PushOver(v: Word)
      requires Valid() && sp < slots.Length
      modifies `sp, `pc, slots
      ensures Valid() && sp == old(sp) + 1 && pc == old(pc) + 4
      ensures slots[..sp] == old(slots[..sp]) + [v]
    {
      slots[sp] := v;
      sp, pc := sp + 1, pc + 4;
    }

    /** One operation, in place on the stack. */
    method Operate(i: Instr, sys: System)
      requires Valid()
      requires pc > 0 && Perform(i, text[..], Model().(pc := pc - 1), slots.Length, sys).Running?
      modifies this, slots
      ensures Valid()
      ensures Running(Model()) == Perform(i, old(text[..]), old(Model().(pc := pc - 1)), slots.Length, sys)
    {
      hide LoadDword, StoreDword, AluDword, Complement, Operand, Means, Inverted;
      match i
      case Nop =>
      case Alu(o, _) => Binary(o);
      case Not(_) => Invert();
      case Pop => sp := sp - 1;
      case Syscall =>
        assert Model().stack[sp - text[pc]..] == slots[sp - text[pc]..sp];
        Call(sys);
      case Ld(_) => Access(i, sys);
      case LdValue(_) => Access(i, sys);
      case St(_) => Access(i, sys);
      case LdValueStack(_) => Access(i, sys);
    }

    /** The operations that load and store. */
    method Access(i: Instr, sys: System)
      requires Valid() && (i.Ld? || i.LdValue? || i.St? || i.LdValueStack?)
      requires pc > 0 && Perform(i, text[..], Model().(pc := pc - 1), slots.Length, sys).Running?
      modifies this, slots
      ensures Valid()
      ensures Running(Model()) == Perform(i, old(text[..]), old(Model().(pc := pc - 1)), slots.Length, sys)
    {
      hide LoadDword, StoreDword, Operand;
      match i
      case Ld(_) => PushOver(Operand(text[..], pc));
      case LdValue(_) =>
        var a := Operand(text[..], pc);
        PushOver(LoadDword(mem, a));
      case St(_) =>
        mem := StoreDword(mem, slots[sp - 2], slots[sp - 1]);
        sp := sp - 1;
      case LdValueStack(_) =>
        var a := slots[sp - 1];
        Replace(LoadDword(mem, a));
    }

    /** OP_call: pop the arguments into an argument vector, last one first, then the function. */
    method Call(sys: System)
      requires Valid() && pc < text.Length && text[pc] <= MAX_ARGS && text[pc] < sp
      modifies this, slots
      ensures Valid()
      ensures var n, k := old(sp), old(text[pc]);
              var args := old(slots[n - k..n]);
              var (r, m) := sys(old(slots[n - k - 1]), args, old(mem));
              pc == old(pc) + 1 && mem == m && sp == n - k && slots[..sp] == old(slots[..n - k - 1]) + [r]
    {
      var parameters := text[pc];
      pc := pc + 1;
      var parameterv := new Word[parameters];
      var i := 0;
      sp := sp - 1;
      while i < parameters
        invariant 0 <= i <= parameters && sp == old(sp) - 1 - i
        invariant slots[..] == old(slots[..]) && pc == old(pc) + 1 && mem == old(mem)
        invariant parameterv[parameters - i..] == slots[old(sp) - i..old(sp)]
      {
        parameterv[parameters - 1 - i] := slots[sp];
        assert parameterv[parameters - 1 - i..] == [slots[sp]] + slots[old(sp) - i..old(sp)];
        sp := sp - 1;
        i := i + 1;
      }
      assert parameterv[..] == parameterv[parameters - i..];
      var (r, m) := sys(slots[sp], parameterv[..], mem);
      slots[sp] := r;
      mem := m;
      sp := sp + 1;
    }

    /** finsh_vm_run. */
    method Run(sys: System)
      requires Valid()
      requires Exec(text[..], State(0, [], mem), slots.Length, sys).Running?
      modifies this, slots
      ensures Valid()
      ensures Running(Model()) == Exec(old(text[..]), State(0, [], old(mem)), slots.Length, sys)
      ensures text[..] == old(text[..])
    {
      sp := 0;
      pc := 0;
      assert slots[..0] == [];
      while pc < text.Length
        invariant Valid() && text[..] == old(text[..])
        invariant Exec(text[..], Model(), slots.Length, sys) ==
                  Exec(text[..], State(0, [], old(mem)), slots.Length, sys)
        decreases text.Length - pc
      {
        var op := text[pc];
        pc := pc + 1;
        Operate(OpTable(op), sys);
      }
    }
  }
}
