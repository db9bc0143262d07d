/** ++ and -- on every kind of lvalue: what they compile to, what that does, and when it is right. */
module FinshSteps {
  import opened Machine
  import opened FinshAlu
  import opened FinshVm
  import opened FinshTree
  import opened FinshCompiler
  import opened FinshCorrect
  import opened FinshCalls

  function Step(up: bool, post: bool, lv: Lval): Expr { if post then Post(up, lv) else Pre(up, lv) }

  /** The code that is emitted for a step.  The update always goes through the slot of the descriptor, and
      for a dereferenced pointer there is none; for a pointer that goes first to a call there is no load either. */
  function StepCode(up: bool, post: bool, lv: Lval): seq<Machine.Byte> {
    match lv
    case LVar(id) =>
      if post then LdVar(VarAddr(id)) + (LdConst(SlotOf(id)) + Update(up, SlotOf(id)) + I(Pop))
      else LdConst(VarAddr(id)) + (Update(up, SlotOf(id)) + I(LdValueStack(W32)))
    case LDeref(p) => Code(p) + (if post && IsDword(p) then I(LdValueStack(W32)) else [])
  }

  lemma StepEmits(up: bool, post: bool, lv: Lval)
    requires ShapedLval(lv)
    ensures Emit(Check(Build(Step(up, post, lv), Nil), false)) == StepCode(up, post, lv)
    ensures CompilableLval(lv) ==> (Compilable(Step(up, post, lv)) <==> lv.LVar? && lv.id.Var?)
  {
    hide Emit, Check, Build, LdVar, LdConst, Update, IsDword;
    Emits(Step(up, post, lv), Nil);
    EmitNil();
  }

  /** A step of a dereferenced pointer changes nothing: ++*p is compiled to p ... */
  lemma PreStepOfDerefIsDropped(up: bool, p: Expr)
    requires Shaped(p)
    ensures Emit(Check(Build(Pre(up, LDeref(p)), Nil), false)) == Code(p)
  {
    hide Emit, Check, Build, Code;
    StepEmits(up, false, LDeref(p));
  }

  /** ... and (*p)++ to what *p is compiled to. */
  lemma PostStepOfDerefIsDropped(up: bool, p: Expr)
    requires Shaped(p)
    ensures Emit(Check(Build(Post(up, LDeref(p)), Nil), false)) == Emit(Check(Build(Load(LDeref(p)), Nil), false))
  {
    hide Emit, Check, Build, Code;
    StepEmits(up, true, LDeref(p));
    LoadEmittedIffDword(p);
  }

  /** What the emitted code computes. */
  function StepDoes(up: bool, post: bool, lv: Lval, m: Memory, sys: System): Result
    requires CompilableLval(lv)
  {
    match lv
    case LVar(id) =>
      var y := Bump(up, LoadDword(m, id.slot));
      if post then Some((LoadDword(m, VarAddr(id)), StoreDword(m, id.slot, y)))
      else Some((y, StoreDword(m, VarAddr(id), y)))
    case LDeref(p) =>
      match Eval(p, m, sys) case None => None
      case Some((a, m1)) => Some((if post && IsDword(p) then LoadDword(m1, a) else a, m1))
  }

  lemma StepExecutes(up: bool, post: bool, lv: Lval, text: seq<Machine.Byte>, s: State, room: nat, sys: System)
    requires CompilableLval(lv) && At(text, s.pc, StepCode(up, post, lv))
    requires Addr(lv, s.mem, sys).Some? && |s.stack| + Nodes(Step(up, post, lv)) + 2 <= room
    ensures StepDoes(up, post, lv, s.mem, sys).Some?
    ensures var (v, m) := StepDoes(up, post, lv, s.mem, sys).value;
            Exec(text, s, room, sys) == Exec(text, State(s.pc + |StepCode(up, post, lv)|, s.stack + [v], m), room, sys)
  {
    hide Exec, LoadDword, StoreDword, Bytes32;
    StepNodes(up, post, lv);
    match lv
    case LVar(id) =>
      if post {
        PostExecutes(up, id, text, s, room, sys);
      } else {
        PreExecutes(up, id, text, s, room, sys);
      }
    case LDeref(p) =>
      hide Code, Eval, IsDword;
      if post && IsDword(p) {
        AtSplit(text, s.pc, Code(p), I(LdValueStack(W32)));
        Executes(p, text, s, room, sys);
        var (a, m1) := Eval(p, s.mem, sys).value;
        ExecutesLdStack(text, State(s.pc + |Code(p)|, s.stack + [a], m1), room, sys, s.stack, a);
      } else {
        Executes(p, text, s, room, sys);
      }
  }

  lemma StepNodes(up: bool, post: bool, lv: Lval)
    ensures Nodes(Step(up, post, lv)) == 1 + Count(BuildLval(lv, Nil)) >= 2
    ensures lv.LDeref? ==> Nodes(Step(up, post, lv)) >= 1 + Nodes(lv.p)
  {
    match lv case LVar(_) => case LDeref(p) => BuildTop(p, Nil);
  }

  lemma PreExecutes(up: bool, id: Ident, text: seq<Machine.Byte>, s: State, room: nat, sys: System)
    requires CompilableLval(LVar(id)) && At(text, s.pc, StepCode(up, false, LVar(id))) && |s.stack| + 4 <= room
    ensures var (v, m) := StepDoes(up, false, LVar(id), s.mem, sys).value;
            Exec(text, s, room, sys) ==
            Exec(text, State(s.pc + |StepCode(up, false, LVar(id))|, s.stack + [v], m), room, sys)
  {
    hide Exec, LoadDword, StoreDword, Bytes32;
    var at, k := VarAddr(id), Update(up, id.slot);
    AtSplit(text, s.pc, LdConst(at), k + I(LdValueStack(W32)));
    AtSplit(text, s.pc + 5, k, I(LdValueStack(W32)));
    ExecutesLd(text, s, room, sys, at);
    ExecutesUpdate(up, at, id.slot, text, State(s.pc + 5, s.stack + [at], s.mem), room, sys, s.stack);
    var y := Bump(up, LoadDword(s.mem, id.slot));
    ExecutesLdStack(text, State(s.pc + 5 + |k|, s.stack + [at], StoreDword(s.mem, at, y)), room, sys, s.stack, at);
    LoadAfterStore(s.mem, at, y);
  }

  lemma PostExecutes(up: bool, id: Ident, text: seq<Machine.Byte>, s: State, room: nat, sys: System)
    requires CompilableLval(LVar(id)) && At(text, s.pc, StepCode(up, true, LVar(id))) && |s.stack| + 4 <= room
    ensures var (v, m) := StepDoes(up, true, LVar(id), s.mem, sys).value;
            Exec(text, s, room, sys) ==
            Exec(text, State(s.pc + |StepCode(up, true, LVar(id))|, s.stack + [v], m), room, sys)
  {
    hide Exec, LoadDword, StoreDword, Bytes32;
    var at, slot, k := VarAddr(id), id.slot, Update(up, id.slot);
    AtSplit(text, s.pc, LdVar(at), LdConst(slot) + k + I(Pop));
    AtSplit(text, s.pc + 5, LdConst(slot) + k, I(Pop));
    AtSplit(text, s.pc + 5, LdConst(slot), k);
    ExecutesLdVar(text, s, room, sys, at);
    var st := s.stack + [LoadDword(s.mem, at)];
    ExecutesLd(text, State(s.pc + 5, st, s.mem), room, sys, slot);
    ExecutesUpdate(up, slot, slot, text, State(s.pc + 10, st + [slot], s.mem), room, sys, st);
    var m1 := StoreDword(s.mem, slot, Bump(up, LoadDword(s.mem, slot)));
    ExecutesPop(text, State(s.pc + 10 + |k|, st + [slot], m1), room, sys, st, slot);
  }

  // ---- When that is what the step should do ----

  /** The step of a finsh variable; that of a system variable only if its slot happens to hold the same
      word, or is the variable itself; never that of a dereferenced pointer. */
  predicate StepRight(post: bool, lv: Lval, m: Memory) {
    match lv
    case LVar(Var(_, _)) => true
    case LVar(SysVar(_, addr, slot)) => if post then slot == addr else LoadDword(m, slot) == LoadDword(m, addr)
    case _ => false
  }

  /** Compiling and running a step gives the value and the memory of the evaluator if and only if that. */
  lemma StepExact(up: bool, post: bool, lv: Lval, m: Memory, sys: System, text: seq<Machine.Byte>, room: nat)
    requires CompilableLval(lv) && Addr(lv, m, sys).Some?
    requires text == Emit(Check(Build(Step(up, post, lv), Nil), false)) && Nodes(Step(up, post, lv)) + 2 <= room
    ensures var (v, m') := Eval(Step(up, post, lv), m, sys).value;
            Exec(text, State(0, [], m), room, sys) == Running(State(|text|, [v], m')) <==> StepRight(post, lv, m)
  {
    hide Emit, Check, Build, Exec, LoadDword, StoreDword;
    LvalShaped(lv);
    StepEmits(up, post, lv);
    assert At(text, 0, StepCode(up, post, lv));
    StepExecutes(up, post, lv, text, State(0, [], m), room, sys);
    var (v, m') := StepDoes(up, post, lv, m, sys).value;
    assert [] + [v] == [v];
    ExecEnds(text, State(|text|, [v], m'), room, sys);
    DoesRight(up, post, lv, m, sys);
  }

  lemma DoesRight(up: bool, post: bool, lv: Lval, m: Memory, sys: System)
    requires CompilableLval(lv) && Addr(lv, m, sys).Some?
    ensures StepDoes(up, post, lv, m, sys) == Eval(Step(up, post, lv), m, sys) <==> StepRight(post, lv, m)
  {
    hide StepDoes, Eval;
    match lv case LVar(id) => VarRight(up, post, id, m, sys); case LDeref(p) => DerefRight(up, post, p, m, sys);
  }

  lemma VarRight(up: bool, post: bool, id: Ident, m: Memory, sys: System)
    requires CompilableLval(LVar(id))
    ensures StepDoes(up, post, LVar(id), m, sys) == Eval(Step(up, post, LVar(id)), m, sys) <==>
              StepRight(post, LVar(id), m)
  {
    hide LoadDword, StoreDword, Bump, Eval;
    var at, x := VarAddr(id), LoadDword(m, VarAddr(id));
    EvalStep(up, post, id, m, sys);
    if post {
      if id.slot != at { TwoPlaces(m, id.slot, at, up); }
    } else {
      BumpDiffers(up, LoadDword(m, id.slot), x);
    }
  }

  lemma EvalStep(up: bool, post: bool, id: Ident, m: Memory, sys: System)
    requires CompilableLval(LVar(id))
    ensures var x := LoadDword(m, VarAddr(id));
            Eval(Step(up, post, LVar(id)), m, sys) ==
            Some((if post then x else Bump(up, x), StoreDword(m, VarAddr(id), Bump(up, x))))
  {
    hide LoadDword, StoreDword, Bump;
  }

  lemma BumpDiffers(up: bool, x: Word, y: Word)
    ensures Bump(up, x) == Bump(up, y) <==> x == y
  {
  }

  lemma DerefRight(up: bool, post: bool, p: Expr, m: Memory, sys: System)
    requires CompilableLval(LDeref(p)) && Eval(p, m, sys).Some?
    ensures StepDoes(up, post, LDeref(p), m, sys) != Eval(Step(up, post, LDeref(p)), m, sys)
  {
    hide LoadDword, StoreDword, Bump, CompilableLval;
    var (a, m1) := Eval(p, m, sys).value;
    StoreChanges(m1, a, up);
    var y := Bump(up, LoadDword(m1, a));
    assert Eval(Step(up, post, LDeref(p)), m, sys) ==
           Some((if post then LoadDword(m1, a) else y, StoreDword(m1, a, y)));
  }

  /** A step changes memory. */
  lemma StoreChanges(m: Memory, a: Word, up: bool)
    ensures StoreDword(m, a, Bump(up, LoadDword(m, a))) != m
  {
    LoadAfterStore(m, a, Bump(up, LoadDword(m, a)));
  }

  lemma LowByte(m: Memory, a: Word, v: Word)
    ensures LoadDword(m, a) % 0x100 == Get(m, a)
    ensures Get(StoreDword(m, a, v), a) == v % 0x100
  {
    LoadAfterStore(m, a, v);
    Low(m, a);
    Low(StoreDword(m, a, v), a);
  }

  lemma Low(m: Memory, a: Word)
    ensures LoadDword(m, a) % 0x100 == Get(m, a)
  {
    var rest := LoadBytes(m, Next(a), 3);
    assert LoadBytes(m, a, 4) == Get(m, a) + 0x100 * rest;
    assert LoadDword(m, a) == (Get(m, a) + 0x100 * rest) % 0x1_0000_0000;
  }

  /** Steps at two places leave different memories, also if the words overlap. */
  lemma TwoPlaces(m: Memory, a: Word, b: Word, up: bool)
    requires a != b
    ensures StoreDword(m, a, Bump(up, LoadDword(m, a))) != StoreDword(m, b, Bump(up, LoadDword(m, b)))
  {
    var y, z := Bump(up, LoadDword(m, a)), Bump(up, LoadDword(m, b));
    var ma, mb := StoreDword(m, a, y), StoreDword(m, b, z);
    LowByte(m, a, y);
    LowByte(m, b, z);
    LoadAfterStore(m, a, y);
    LoadAfterStore(m, b, z);
    hide LoadDword, StoreDword;
    if a == Next(b) || a == Next(Next(b)) || a == Next(Next(Next(b))) {
      assert Get(ma, b) == Get(m, b) != Get(mb, b);
    } else {
      assert Get(mb, a) == Get(m, a) != Get(ma, a);
    }
  }
}
