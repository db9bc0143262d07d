/** The main theorems about the finsh compiler: the machine computes what the evaluator says. */
module FinshCorrect {
  import opened Machine
  import opened FinshAlu
  import opened FinshVm
  import opened FinshTree
  import opened FinshCompiler

  /** The bytes of some code stand in the text segment at pc. */
  ghost predicate At(text: seq<Machine.Byte>, pc: nat, code: seq<Machine.Byte>) {
    pc + |code| <= |text| && text[pc..pc + |code|] == code
  }

  lemma AtSplit(text: seq<Machine.Byte>, pc: nat, a: seq<Machine.Byte>, b: seq<Machine.Byte>)
    requires At(text, pc, a + b)
    ensures At(text, pc, a) && At(text, pc + |a|, b)
  {
    assert text[pc..pc + |a|] == (a + b)[..|a|] == a;
    assert text[pc + |a|..pc + |a| + |b|] == (a + b)[|a|..] == b;
  }

  // ---- Single operations ----

  lemma Executes1(i: Instr, text: seq<Machine.Byte>, s: State, room: nat, sys: System, s': State)
    requires At(text, s.pc, I(i))
    requires Perform(i, text, s, room, sys) == Running(s') && s'.pc > s.pc
    ensures Exec(text, s, room, sys) == Exec(text, s', room, sys)
  {
    assert text[s.pc] == text[s.pc..s.pc + 1][0] == Opcode(i);
    OpTableInvertsOpcode(i);
  }

  lemma OperandOf(text: seq<Machine.Byte>, pc: nat, v: Word)
    requires At(text, pc, Bytes32(v))
    ensures Operand(text, pc) == v
  {
    var t := text[pc..pc + 4];
    assert t[0] == text[pc] && t[1] == text[pc + 1] && t[2] == text[pc + 2] && t[3] == text[pc + 3];
    SetGet32(v);
  }

  lemma ExecutesLd(text: seq<Machine.Byte>, s: State, room: nat, sys: System, v: Word)
    requires At(text, s.pc, LdConst(v)) && |s.stack| < room
    ensures Exec(text, s, room, sys) == Exec(text, State(s.pc + 5, s.stack + [v], s.mem), room, sys)
  {
    hide Exec, Bytes32, Operand;
    AtSplit(text, s.pc, I(Ld(W32)), Bytes32(v));
    OperandOf(text, s.pc + 1, v);
    Executes1(Ld(W32), text, s, room, sys, State(s.pc + 5, s.stack + [v], s.mem));
  }

  lemma ExecutesLdVar(text: seq<Machine.Byte>, s: State, room: nat, sys: System, a: Word)
    requires At(text, s.pc, LdVar(a)) && |s.stack| < room
    ensures Exec(text, s, room, sys)
         == Exec(text, State(s.pc + 5, s.stack + [LoadDword(s.mem, a)], s.mem), room, sys)
  {
    hide Exec, Bytes32, Operand, LoadDword;
    AtSplit(text, s.pc, I(LdValue(W32)), Bytes32(a));
    OperandOf(text, s.pc + 1, a);
    Executes1(LdValue(W32), text, s, room, sys, State(s.pc + 5, s.stack + [LoadDword(s.mem, a)], s.mem));
  }

  lemma ExecutesAlu(text: seq<Machine.Byte>, s: State, room: nat, sys: System, op: AluOp,
                    st: seq<Word>, x: Word, y: Word)
    requires At(text, s.pc, I(Alu(op, W32)))
    requires s.stack == st + [x] + [y] && AluDword(op, x, y).Some?
    ensures Exec(text, s, room, sys)
         == Exec(text, State(s.pc + 1, st + [AluDword(op, x, y).value], s.mem), room, sys)
  {
    hide Exec, AluDword;
    assert s.stack[..|s.stack| - 2] == st;
    Executes1(Alu(op, W32), text, s, room, sys, State(s.pc + 1, st + [AluDword(op, x, y).value], s.mem));
  }

  lemma ExecutesNot(text: seq<Machine.Byte>, s: State, room: nat, sys: System, st: seq<Word>, x: Word)
    requires At(text, s.pc, I(Not(W32))) && s.stack == st + [x]
    ensures Exec(text, s, room, sys) == Exec(text, State(s.pc + 1, st + [Complement(x)], s.mem), room, sys)
  {
    hide Exec, Complement;
    assert s.stack[..|s.stack| - 1] == st;
    Executes1(Not(W32), text, s, room, sys, State(s.pc + 1, st + [Complement(x)], s.mem));
  }

  lemma ExecutesLdStack(text: seq<Machine.Byte>, s: State, room: nat, sys: System, st: seq<Word>, a: Word)
    requires At(text, s.pc, I(LdValueStack(W32))) && s.stack == st + [a]
    ensures Exec(text, s, room, sys) == Exec(text, State(s.pc + 1, st + [LoadDword(s.mem, a)], s.mem), room, sys)
  {
    hide Exec, LoadDword;
    assert s.stack[..|s.stack| - 1] == st;
    Executes1(LdValueStack(W32), text, s, room, sys, State(s.pc + 1, st + [LoadDword(s.mem, a)], s.mem));
  }

  lemma ExecutesSt(text: seq<Machine.Byte>, s: State, room: nat, sys: System, st: seq<Word>, a: Word, y: Word)
    requires At(text, s.pc, I(St(W32))) && s.stack == st + [a] + [y]
    ensures Exec(text, s, room, sys) == Exec(text, State(s.pc + 1, st + [a], StoreDword(s.mem, a, y)), room, sys)
  {
    hide Exec, StoreDword;
    assert s.stack[..|s.stack| - 1] == st + [a];
    Executes1(St(W32), text, s, room, sys, State(s.pc + 1, st + [a], StoreDword(s.mem, a, y)));
  }

  lemma ExecutesPop(text: seq<Machine.Byte>, s: State, room: nat, sys: System, st: seq<Word>, y: Word)
    requires At(text, s.pc, I(Pop)) && s.stack == st + [y]
    ensures Exec(text, s, room, sys) == Exec(text, State(s.pc + 1, st, s.mem), room, sys)
  {
    hide Exec;
    assert s.stack[..|s.stack| - 1] == st;
    Executes1(Pop, text, s, room, sys, State(s.pc + 1, st, s.mem));
  }

  lemma ExecutesCall(text: seq<Machine.Byte>, s: State, room: nat, sys: System,
                     st: seq<Word>, f: Word, args: seq<Word>)
    requires |args| <= MAX_ARGS && At(text, s.pc, [Opcode(Syscall), |args|])
    requires s.stack == st + [f] + args
    ensures var (r, m) := sys(f, args, s.mem);
            Exec(text, s, room, sys) == Exec(text, State(s.pc + 2, st + [r], m), room, sys)
  {
    hide Exec;
    AtSplit(text, s.pc, I(Syscall), [|args|]);
    assert text[s.pc + 1] == text[s.pc + 1..s.pc + 2][0] == |args|;
    var n, k := |s.stack|, |args|;
    assert s.stack[n - k - 1] == f && s.stack[n - k..] == args && s.stack[..n - k - 1] == st;
    var (r, m) := sys(f, args, s.mem);
    Executes1(Syscall, text, s, room, sys, State(s.pc + 2, st + [r], m));
  }

  // ---- Expressions ----

  /** Number of nodes of the tree of an expression. */
  function Nodes(e: Expr): nat { Count(Build(e, Nil)) }

  lemma CountNode(a: Attr, child: Tree, next: Tree)
    ensures Count(Node(a, child, next)) == 1 + Count(child) + Count(next)
  {
  }

  lemma BuildTop(e: Expr, next: Tree)
    ensures var t := Build(e, Nil); t.Node? && t.sibling == Nil && Build(e, next) == Node(t.a, t.child, next)
  {
    if e.Load? {
      match e.lv case LVar(_) => case LDeref(_) =>
    }
  }

  lemma CountBuild(e: Expr, next: Tree)
    ensures Count(Build(e, next)) == Nodes(e) + Count(next)
  {
    var t := Build(e, Nil);
    BuildTop(e, next);
    CountNode(t.a, t.child, Nil);
    CountNode(t.a, t.child, next);
  }

  lemma NodesPositive(e: Expr)
    ensures Nodes(e) >= 1
  {
    BuildTop(e, Nil);
  }

  /** Running the code of an expression, from any stack and memory in which it is defined, pushes
      exactly its value, leaves exactly its memory, and needs two slots more than it has nodes. */
  lemma {:induction false} Executes(e: Expr, text: seq<Machine.Byte>, s: State, room: nat, sys: System)
    requires Compilable(e) && At(text, s.pc, Code(e))
    requires Eval(e, s.mem, sys).Some? && |s.stack| + Nodes(e) + 2 <= room
    ensures var (v, m) := Eval(e, s.mem, sys).value;
            Exec(text, s, room, sys) == Exec(text, State(s.pc + |Code(e)|, s.stack + [v], m), room, sys)
    decreases e
  {
    hide Exec, AluDword, LoadDword, StoreDword, Bytes32, Emit, Check;
    match e
    case Const(_, v) => ExecutesLd(text, s, room, sys, v);
    case Load(lv) => ExecutesLoad(lv, text, s, room, sys);
    case AddrOf(lv) => ExecutesAddr(lv, text, s, room, sys);
    case Binary(op, l, r) => ExecutesBinary(op, l, r, text, s, room, sys);
    case Compl(x) => ExecutesCompl(x, text, s, room, sys);
    case Set(lv, x) => ExecutesSet(lv, x, text, s, room, sys);
    case Pre(up, lv) => ExecutesPre(up, lv, text, s, room, sys);
    case Post(up, lv) => ExecutesPost(up, lv, text, s, room, sys);
    case Call(f, args) => ExecutesSyscall(f, args, text, s, room, sys);
  }

  lemma {:induction false} ExecutesCompl(x: Expr, text: seq<Machine.Byte>, s: State, room: nat, sys: System)
    requires Compilable(Compl(x)) && At(text, s.pc, Code(Compl(x)))
    requires Eval(Compl(x), s.mem, sys).Some? && |s.stack| + Nodes(Compl(x)) + 2 <= room
    ensures var (v, m) := Eval(Compl(x), s.mem, sys).value;
            Exec(text, s, room, sys) == Exec(text, State(s.pc + |Code(Compl(x))|, s.stack + [v], m), room, sys)
    decreases Compl(x), 0
  {
    hide Exec, Complement;
    AtSplit(text, s.pc, Code(x), I(Not(W32)));
    Executes(x, text, s, room, sys);
    var (y, m1) := Eval(x, s.mem, sys).value;
    ExecutesNot(text, State(s.pc + |Code(x)|, s.stack + [y], m1), room, sys, s.stack, y);
  }

  lemma CallParts(f: Ident, args: Args, text: seq<Machine.Byte>, pc: nat)
    requires Compilable(Call(f, args)) && At(text, pc, Code(Call(f, args)))
    ensures f.SysCall? && NumArgs(args) <= MAX_ARGS && CompilableArgs(args)
    ensures var k := CodeArgs(args);
            At(text, pc, LdConst(f.func)) && At(text, pc + 5, k) &&
            At(text, pc + 5 + |k|, [Opcode(Syscall), NumArgs(args)]) && |Code(Call(f, args))| == 7 + |k|
    ensures Nodes(Call(f, args)) == 2 + Count(BuildArgs(args))
  {
    hide Code;
    CodeOfCall(f, args);
    CountNode(Attr(Func, Void, false, NoIdent, 0), Node(Attr(Id, Void, false, f, 0), Nil, BuildArgs(args)), Nil);
    var k := CodeArgs(args);
    AtSplit(text, pc, LdConst(f.func) + k, [Opcode(Syscall), NumArgs(args)]);
    AtSplit(text, pc, LdConst(f.func), k);
  }

  lemma {:induction false} ExecutesSyscall(f: Ident, args: Args, text: seq<Machine.Byte>, s: State, room: nat,
                                           sys: System)
    requires Compilable(Call(f, args)) && At(text, s.pc, Code(Call(f, args)))
    requires Eval(Call(f, args), s.mem, sys).Some? && |s.stack| + Nodes(Call(f, args)) + 2 <= room
    ensures var (v, m) := Eval(Call(f, args), s.mem, sys).value;
            Exec(text, s, room, sys) == Exec(text, State(s.pc + |Code(Call(f, args))|, s.stack + [v], m), room, sys)
    decreases Call(f, args), 0
  {
    hide Exec, Code, CodeArgs, Compilable, Bytes32;
    CallParts(f, args, text, s.pc);
    var k := CodeArgs(args);
    ExecutesLd(text, s, room, sys, f.func);
    ExecutesArgs(args, text, State(s.pc + 5, s.stack + [f.func], s.mem), room, sys);
    var (vs, m1) := EvalArgs(args, s.mem, sys).value;
    ExecutesCall(text, State(s.pc + 5 + |k|, s.stack + [f.func] + vs, m1), room, sys, s.stack, f.func, vs);
  }

  lemma BinaryParts(op: AluOp, l: Expr, r: Expr, text: seq<Machine.Byte>, pc: nat)
    requires Compilable(Binary(op, l, r)) && At(text, pc, Code(Binary(op, l, r)))
    ensures Compilable(l) && Compilable(r)
    ensures At(text, pc, Code(l)) && At(text, pc + |Code(l)|, Code(r))
    ensures At(text, pc + |Code(l)| + |Code(r)|, I(Alu(op, W32)))
    ensures |Code(Binary(op, l, r))| == |Code(l)| + |Code(r)| + 1
    ensures Nodes(Binary(op, l, r)) == 1 + Nodes(l) + Nodes(r) && Nodes(l) >= 1
  {
    hide Code, IsDword;
    CodeOfBinary(op, l, r);
    AtSplit(text, pc, Code(l) + Code(r), I(Alu(op, W32)));
    AtSplit(text, pc, Code(l), Code(r));
    CountBuild(l, Build(r, Nil));
    CountNode(Attr(SysAlu(op), Void, false, NoIdent, 0), Build(l, Build(r, Nil)), Nil);
    NodesPositive(l);
  }

  lemma {:induction false} ExecutesBinary(op: AluOp, l: Expr, r: Expr, text: seq<Machine.Byte>, s: State,
                                          room: nat, sys: System)
    requires Compilable(Binary(op, l, r)) && At(text, s.pc, Code(Binary(op, l, r)))
    requires Eval(Binary(op, l, r), s.mem, sys).Some? && |s.stack| + Nodes(Binary(op, l, r)) + 2 <= room
    ensures var (v, m) := Eval(Binary(op, l, r), s.mem, sys).value;
            Exec(text, s, room, sys) ==
            Exec(text, State(s.pc + |Code(Binary(op, l, r))|, s.stack + [v], m), room, sys)
    decreases Binary(op, l, r), 0
  {
    hide Exec, AluDword, Code, Build, Compilable;
    BinaryParts(op, l, r, text, s.pc);
    Executes(l, text, s, room, sys);
    var (x, m1) := Eval(l, s.mem, sys).value;
    var s1 := State(s.pc + |Code(l)|, s.stack + [x], m1);
    Executes(r, text, s1, room, sys);
    var (y, m2) := Eval(r, m1, sys).value;
    ExecutesAlu(text, State(s1.pc + |Code(r)|, s1.stack + [y], m2), room, sys, op, s.stack, x, y);
  }

  lemma SetParts(lv: Lval, x: Expr, text: seq<Machine.Byte>, pc: nat)
    requires Compilable(Set(lv, x)) && At(text, pc, Code(Set(lv, x)))
    ensures CompilableLval(lv) && Compilable(x)
    ensures At(text, pc, CodeAddr(lv)) && At(text, pc + |CodeAddr(lv)|, Code(x))
    ensures var n := pc + |CodeAddr(lv)| + |Code(x)|;
            At(text, n, I(St(W32))) && At(text, n + 1, I(LdValueStack(W32)))
    ensures |Code(Set(lv, x))| == |CodeAddr(lv)| + |Code(x)| + 2
    ensures Nodes(Set(lv, x)) == 1 + Count(BuildLval(lv, Nil)) + Nodes(x) && Count(BuildLval(lv, Nil)) >= 1
  {
    hide Code, CodeAddr, IsDword;
    CodeOfSet(lv, x);
    var k := CodeAddr(lv) + Code(x);
    AtSplit(text, pc, k, I(St(W32)) + I(LdValueStack(W32)));
    AtSplit(text, pc, CodeAddr(lv), Code(x));
    AtSplit(text, pc + |k|, I(St(W32)), I(LdValueStack(W32)));
    CountBuild(Load(lv), Build(x, Nil));
    CountNode(Attr(Assign, Void, false, NoIdent, 0), BuildLval(lv, Build(x, Nil)), Nil);
    NodesPositive(Load(lv));
  }

  lemma {:induction false} ExecutesSet(lv: Lval, x: Expr, text: seq<Machine.Byte>, s: State, room: nat, sys: System)
    requires Compilable(Set(lv, x)) && At(text, s.pc, Code(Set(lv, x)))
    requires Eval(Set(lv, x), s.mem, sys).Some? && |s.stack| + Nodes(Set(lv, x)) + 2 <= room
    ensures var (v, m) := Eval(Set(lv, x), s.mem, sys).value;
            Exec(text, s, room, sys) == Exec(text, State(s.pc + |Code(Set(lv, x))|, s.stack + [v], m), room, sys)
    decreases Set(lv, x), 0
  {
    hide Exec, LoadDword, StoreDword, Code, CodeAddr, Build, BuildLval, Compilable, CompilableLval;
    SetParts(lv, x, text, s.pc);
    var k := CodeAddr(lv) + Code(x);
    ExecutesAddr(lv, text, s, room, sys);
    var (a, m1) := Addr(lv, s.mem, sys).value;
    var s1 := State(s.pc + |CodeAddr(lv)|, s.stack + [a], m1);
    Executes(x, text, s1, room, sys);
    var (y, m2) := Eval(x, m1, sys).value;
    var s2 := State(s.pc + |k|, s.stack + [a] + [y], m2);
    ExecutesSt(text, s2, room, sys, s.stack, a, y);
    ExecutesLdStack(text, State(s2.pc + 1, s.stack + [a], StoreDword(m2, a, y)), room, sys, s.stack, a);
    LoadAfterStore(m2, a, y);
  }

  lemma {:induction false} ExecutesLoad(lv: Lval, text: seq<Machine.Byte>, s: State, room: nat, sys: System)
    requires CompilableLval(lv) && IsDwordLval(lv) && At(text, s.pc, CodeLoad(lv))
    requires Addr(lv, s.mem, sys).Some? && |s.stack| + Count(BuildLval(lv, Nil)) + 2 <= room
    ensures var (a, m) := Addr(lv, s.mem, sys).value;
            Exec(text, s, room, sys) ==
            Exec(text, State(s.pc + |CodeLoad(lv)|, s.stack + [LoadDword(m, a)], m), room, sys)
    decreases lv
  {
    hide Exec, LoadDword;
    match lv
    case LVar(id) => ExecutesLdVar(text, s, room, sys, VarAddr(id));
    case LDeref(p) =>
      AtSplit(text, s.pc, Code(p), I(LdValueStack(W32)));
      Executes(p, text, s, room, sys);
      var (a, m1) := Eval(p, s.mem, sys).value;
      ExecutesLdStack(text, State(s.pc + |Code(p)|, s.stack + [a], m1), room, sys, s.stack, a);
  }

  lemma {:induction false} ExecutesAddr(lv: Lval, text: seq<Machine.Byte>, s: State, room: nat, sys: System)
    requires CompilableLval(lv) && At(text, s.pc, CodeAddr(lv))
    requires Addr(lv, s.mem, sys).Some? && |s.stack| + Count(BuildLval(lv, Nil)) + 2 <= room
    ensures var (a, m) := Addr(lv, s.mem, sys).value;
            Exec(text, s, room, sys) == Exec(text, State(s.pc + |CodeAddr(lv)|, s.stack + [a], m), room, sys)
    decreases lv
  {
    hide Exec;
    match lv
    case LVar(id) => ExecutesLd(text, s, room, sys, VarAddr(id));
    case LDeref(p) => Executes(p, text, s, room, sys);
  }

  /** The update code stores to the address on the stack what it made of the word at its own operand. */
  lemma ExecutesUpdate(up: bool, at: Word, slot: Word, text: seq<Machine.Byte>, s: State, room: nat, sys: System,
                       st: seq<Word>)
    requires At(text, s.pc, Update(up, slot)) && s.stack == st + [at] && |st| + 3 <= room
    ensures var y := Bump(up, LoadDword(s.mem, slot));
            Exec(text, s, room, sys) ==
            Exec(text, State(s.pc + |Update(up, slot)|, st + [at], StoreDword(s.mem, at, y)), room, sys)
  {
    hide Exec, LoadDword, StoreDword, Bytes32;
    var op := if up then Add else Sub;
    var k1 := LdVar(slot) + LdConst(1);
    AtSplit(text, s.pc, k1 + I(Alu(op, W32)), I(St(W32)));
    AtSplit(text, s.pc, k1, I(Alu(op, W32)));
    AtSplit(text, s.pc, LdVar(slot), LdConst(1));
    var x := LoadDword(s.mem, slot);
    ExecutesLdVar(text, s, room, sys, slot);
    var s1 := State(s.pc + 5, s.stack + [x], s.mem);
    ExecutesLd(text, s1, room, sys, 1);
    ExecutesAlu(text, State(s.pc + 10, s1.stack + [1], s.mem), room, sys, op, s.stack, x, 1);
    ExecutesSt(text, State(s.pc + 11, s.stack + [Bump(up, x)], s.mem), room, sys, st, at, Bump(up, x));
  }

  lemma ExecutesPre(up: bool, lv: Lval, text: seq<Machine.Byte>, s: State, room: nat, sys: System)
    requires Compilable(Pre(up, lv)) && At(text, s.pc, Code(Pre(up, lv)))
    requires Eval(Pre(up, lv), s.mem, sys).Some? && |s.stack| + Nodes(Pre(up, lv)) + 2 <= room
    ensures var (v, m) := Eval(Pre(up, lv), s.mem, sys).value;
            Exec(text, s, room, sys) == Exec(text, State(s.pc + |Code(Pre(up, lv))|, s.stack + [v], m), room, sys)
  {
    hide Exec, LoadDword, StoreDword, Bytes32;
    var at := lv.id.slot;
    var k := Update(up, at);
    AtSplit(text, s.pc, LdConst(at), k + I(LdValueStack(W32)));
    AtSplit(text, s.pc + 5, k, I(LdValueStack(W32)));
    ExecutesLd(text, s, room, sys, at);
    ExecutesUpdate(up, at, at, text, State(s.pc + 5, s.stack + [at], s.mem), room, sys, s.stack);
    var y := Bump(up, LoadDword(s.mem, at));
    var m1 := StoreDword(s.mem, at, y);
    ExecutesLdStack(text, State(s.pc + 5 + |k|, s.stack + [at], m1), room, sys, s.stack, at);
    LoadAfterStore(s.mem, at, y);
  }

  lemma ExecutesPost(up: bool, lv: Lval, text: seq<Machine.Byte>, s: State, room: nat, sys: System)
    requires Compilable(Post(up, lv)) && At(text, s.pc, Code(Post(up, lv)))
    requires Eval(Post(up, lv), s.mem, sys).Some? && |s.stack| + Nodes(Post(up, lv)) + 2 <= room
    ensures var (v, m) := Eval(Post(up, lv), s.mem, sys).value;
            Exec(text, s, room, sys) == Exec(text, State(s.pc + |Code(Post(up, lv))|, s.stack + [v], m), room, sys)
  {
    hide Exec, LoadDword, StoreDword, Bytes32;
    var at := lv.id.slot;
    var k := Update(up, at);
    CountNode(Attr(if up then Inc else Dec, Void, false, NoIdent, 0), BuildLval(lv, Nil), Nil);
    assert Count(BuildLval(lv, Nil)) == 1;
    AtSplit(text, s.pc, LdVar(at), LdConst(at) + k + I(Pop));
    AtSplit(text, s.pc + 5, LdConst(at) + k, I(Pop));
    AtSplit(text, s.pc + 5, LdConst(at), k);
    var x := LoadDword(s.mem, at);
    ExecutesLdVar(text, s, room, sys, at);
    var st := s.stack + [x];
    ExecutesLd(text, State(s.pc + 5, st, s.mem), room, sys, at);
    ExecutesUpdate(up, at, at, text, State(s.pc + 10, st + [at], s.mem), room, sys, st);
    var m1 := StoreDword(s.mem, at, Bump(up, x));
    ExecutesPop(text, State(s.pc + 10 + |k|, st + [at], m1), room, sys, st, at);
  }

  lemma {:induction false} ExecutesArgs(a: Args, text: seq<Machine.Byte>, s: State, room: nat, sys: System)
    requires CompilableArgs(a) && At(text, s.pc, CodeArgs(a))
    requires EvalArgs(a, s.mem, sys).Some? && |s.stack| + Count(BuildArgs(a)) + 2 <= room
    ensures var (vs, m) := EvalArgs(a, s.mem, sys).value;
            |vs| == NumArgs(a) &&
            Exec(text, s, room, sys) == Exec(text, State(s.pc + |CodeArgs(a)|, s.stack + vs, m), room, sys)
    decreases a
  {
    hide Exec, Code, Eval, Build, Compilable;
    match a
    case NoArgs =>
      assert s.stack + [] == s.stack;
    case Arg(e, rest) =>
      CountBuild(e, BuildArgs(rest));
      AtSplit(text, s.pc, Code(e), CodeArgs(rest));
      Executes(e, text, s, room, sys);
      var (v, m1) := Eval(e, s.mem, sys).value;
      var s1 := State(s.pc + |Code(e)|, s.stack + [v], m1);
      NodesPositive(e);
      ExecutesArgs(rest, text, s1, room, sys);
      var (vs, m2) := EvalArgs(rest, m1, sys).value;
      assert s.stack + [v] + vs == s.stack + ([v] + vs);
  }

  // ---- Statement lists ----

  /** A line of statements: at least one expression. */
  datatype Stmts = Last(e: Expr) | Then(e: Expr, rest: Stmts)

  /** The chain of sibling nodes that the parser leaves at its root. */
  function BuildAll(p: Stmts): Tree {
    match p case Last(e) => Build(e, Nil) case Then(e, rest) => Build(e, BuildAll(rest))
  }

  /** Statements one after the other; the value is that of the last one. */
  function EvalAll(p: Stmts, m: Memory, sys: System): Result {
    match p
    case Last(e) => Eval(e, m, sys)
    case Then(e, rest) =>
      match Eval(e, m, sys) case None => None case Some((_, m1)) => EvalAll(rest, m1, sys)
  }

  predicate CompilableAll(p: Stmts) {
    Compilable(p.e) && (p.Then? ==> CompilableAll(p.rest))
  }

  function CodeAll(p: Stmts): seq<Machine.Byte> {
    match p case Last(e) => Code(e) case Then(e, rest) => Code(e) + I(Pop) + CodeAll(rest)
  }

  predicate ShapedAll(p: Stmts) { Shaped(p.e) && (p.Then? ==> ShapedAll(p.rest)) }

  lemma {:induction false} AllShaped(p: Stmts)
    requires CompilableAll(p)
    ensures ShapedAll(p)
    decreases p
  {
    CompilableShaped(p.e);
    if p.Then? { AllShaped(p.rest); }
  }

  lemma {:induction false} EmitsAll(p: Stmts)
    requires ShapedAll(p)
    ensures EmitList(Check(BuildAll(p), false)) == CodeAll(p) && Check(BuildAll(p), false).Node?
    decreases p
  {
    hide EmitNode;
    var next := if p.Then? then BuildAll(p.rest) else Nil;
    if p.Then? { EmitsAll(p.rest); }
    Emits(p.e, Nil);
    var t := Check(Build(p.e, Nil), false);
    BuildTop(p.e, next);
    assert Check(BuildAll(p), false) == Node(t.a, t.child, Check(next, false));
    assert Node(t.a, t.child, Nil) == t;
    assert Emit(t) == Code(p.e);
  }

  lemma {:induction false} ExecutesAll(p: Stmts, text: seq<Machine.Byte>, s: State, room: nat, sys: System)
    requires CompilableAll(p) && At(text, s.pc, CodeAll(p)) && s.stack == []
    requires EvalAll(p, s.mem, sys).Some? && Count(BuildAll(p)) + 2 <= room
    ensures var (v, m) := EvalAll(p, s.mem, sys).value;
            Exec(text, s, room, sys) == Exec(text, State(s.pc + |CodeAll(p)|, [v], m), room, sys)
    decreases p
  {
    hide Exec, Code, Eval, Build, Compilable;
    match p
    case Last(e) =>
      Executes(e, text, s, room, sys);
      var (v, _) := Eval(e, s.mem, sys).value;
      assert s.stack + [v] == [v];
    case Then(e, rest) =>
      CountBuild(e, BuildAll(rest));
      AtSplit(text, s.pc, Code(e) + I(Pop), CodeAll(rest));
      AtSplit(text, s.pc, Code(e), I(Pop));
      Executes(e, text, s, room, sys);
      var (v, m1) := Eval(e, s.mem, sys).value;
      ExecutesPop(text, State(s.pc + |Code(e)|, [v], m1), room, sys, [], v);
      ExecutesAll(rest, text, State(s.pc + |Code(e)| + 1, [], m1), room, sys);
  }

  lemma {:induction false} ExecutesZeros(text: seq<Machine.Byte>, s: State, room: nat, sys: System)
    requires s.pc <= |text| && forall i :: s.pc <= i < |text| ==> text[i] == 0
    ensures Exec(text, s, room, sys) == Running(s.(pc := |text|))
    decreases |text| - s.pc
  {
    if s.pc < |text| {
      ExecutesZeros(text, s.(pc := s.pc + 1), room, sys);
    }
  }

  /** Compiler correctness.  For every line of statements that the compiler translates, that is
      defined from a memory, and whose code fits the text segment: type checking it, compiling it and
      running the machine on the whole text segment ends normally with the evaluator's memory and with
      the value of the last statement as the only stack slot. */
  lemma CompilerCorrect(p: Stmts, m: Memory, sys: System, textMax: nat, stackMax: nat)
    requires CompilableAll(p) && EvalAll(p, m, sys).Some?
    requires |CodeAll(p)| <= textMax && Count(BuildAll(p)) + 2 <= stackMax
    ensures EmitList(Check(BuildAll(p), false)) == CodeAll(p)
    ensures var (v, m') := EvalAll(p, m, sys).value;
            Exec(Program(BuildAll(p), textMax), State(0, [], m), stackMax, sys)
              == Running(State(textMax, [v], m'))
  {
    hide EmitNode, Exec, EvalAll, Build, Code, Compilable;
    AllShaped(p);
    EmitsAll(p);
    var text := Program(BuildAll(p), textMax);
    ExecutesAll(p, text, State(0, [], m), stackMax, sys);
    var (v, m') := EvalAll(p, m, sys).value;
    ExecutesZeros(text, State(|CodeAll(p)|, [v], m'), stackMax, sys);
  }

  lemma ExecEnds(text: seq<Machine.Byte>, s: State, room: nat, sys: System)
    requires s.pc >= |text|
    ensures Exec(text, s, room, sys) == Running(s)
  {
  }
}
