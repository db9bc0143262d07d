/** Compiler correctness: what the emitted code computes, against a direct evaluator. */
module FinshCompiler {
  import opened Machine
  import opened FinshAlu
  import opened FinshVm
  import opened FinshTree

  // ---- Expressions, as a reader of the shell's C dialect understands them ----

  datatype Lval = LVar(id: Ident) | LDeref(p: Expr)

  datatype Expr =
    | Const(kind: NodeType, v: Word)
    | Load(lv: Lval)
    | AddrOf(lv: Lval)
    | Binary(op: AluOp, l: Expr, r: Expr)
    | Compl(e: Expr)
    | Set(lv: Lval, e: Expr)
    | Pre(up: bool, lv: Lval)
    | Post(up: bool, lv: Lval)
    | Call(func: Ident, args: Args)

  datatype Args = NoArgs | Arg(e: Expr, rest: Args)

  function NumArgs(a: Args): nat { if a.NoArgs? then 0 else 1 + NumArgs(a.rest) }

  /** The tree the parser builds for an expression, in front of its next sibling. */
  function Build(e: Expr, next: Tree): Tree {
    match e
    case Const(k, v) => Node(Attr(k, Void, false, NoIdent, v), Nil, next)
    case Load(lv) => BuildLval(lv, next)
    case AddrOf(lv) => Plain(GetAddr, BuildLval(lv, Nil), next)
    case Binary(op, l, r) => Plain(SysAlu(op), Build(l, Build(r, Nil)), next)
    case Compl(x) => Plain(Bitwise, Build(x, Nil), next)
    case Set(lv, x) => Plain(Assign, BuildLval(lv, Build(x, Nil)), next)
    case Pre(up, lv) => Plain(if up then PreInc else PreDec, BuildLval(lv, Nil), next)
    case Post(up, lv) => Plain(if up then Inc else Dec, BuildLval(lv, Nil), next)
    case Call(f, args) =>
      Plain(Func, Node(Attr(Id, Void, false, f, 0), Nil, BuildArgs(args)), next)
  }

  function Plain(k: NodeType, child: Tree, next: Tree): Tree {
    Node(Attr(k, Void, false, NoIdent, 0), child, next)
  }

  function BuildLval(lv: Lval, next: Tree): Tree {
    match lv
    case LVar(id) => Node(Attr(Id, Void, false, id, 0), Nil, next)
    case LDeref(p) => Plain(GetValue, Build(p, Nil), next)
  }

  function BuildArgs(a: Args): Tree {
    match a case NoArgs => Nil case Arg(e, rest) => Build(e, BuildArgs(rest))
  }

  // ---- The direct evaluator: operands left to right, undefined where C is ----

  type Result = Option<(Word, Memory)>

  function Eval(e: Expr, m: Memory, sys: System): Result {
    match e
    case Const(_, v) => Some((v, m))
    case Load(lv) =>
      (match Addr(lv, m, sys) case None => None case Some((a, m1)) => Some((LoadDword(m1, a), m1)))
    case AddrOf(lv) => Addr(lv, m, sys)
    case Binary(op, l, r) =>
      (match Eval(l, m, sys) case None => None case Some((x, m1)) =>
       match Eval(r, m1, sys) case None => None case Some((y, m2)) =>
       match AluDword(op, x, y) case None => None case Some(z) => Some((z, m2)))
    case Compl(x) =>
      (match Eval(x, m, sys) case None => None case Some((y, m1)) => Some((Complement(y), m1)))
    case Set(lv, x) =>
      (match Addr(lv, m, sys) case None => None case Some((a, m1)) =>
       match Eval(x, m1, sys) case None => None case Some((y, m2)) => Some((y, StoreDword(m2, a, y))))
    case Pre(up, lv) =>
      (match Addr(lv, m, sys) case None => None case Some((a, m1)) =>
       var y := Bump(up, LoadDword(m1, a)); Some((y, StoreDword(m1, a, y))))
    case Post(up, lv) =>
      (match Addr(lv, m, sys) case None => None case Some((a, m1)) =>
       var y := LoadDword(m1, a); Some((y, StoreDword(m1, a, Bump(up, y)))))
    case Call(f, args) =>
      (match EvalArgs(args, m, sys) case None => None case Some((vs, m1)) =>
       if f.SysCall? then Some(sys(f.func, vs, m1)) else None)
  }

  function Bump(up: bool, v: Word): Word { Wrap(if up then v + 1 else v - 1) }

  function Addr(lv: Lval, m: Memory, sys: System): Result {
    match lv
    case LVar(Var(_, at)) => Some((at, m))
    case LVar(SysVar(_, at, _)) => Some((at, m))
    case LVar(_) => None
    case LDeref(p) => Eval(p, m, sys)
  }

  function EvalArgs(a: Args, m: Memory, sys: System): Option<(seq<Word>, Memory)> {
    match a
    case NoArgs => Some(([], m))
    case Arg(e, rest) =>
      match Eval(e, m, sys) case None => None case Some((v, m1)) =>
      match EvalArgs(rest, m1, sys) case None => None case Some((vs, m2)) => Some(([v] + vs, m2))
  }

  // ---- Which expressions the compiler accepts, and which it translates ----

  predicate DwordVar(ty: FinshType) {
    match ty
    case TInt => true case TUint => true case TLong => true case TUlong => true
    case TCharP => true case TShortP => true case TIntP => true case TLongP => true
    case _ => false
  }

  /** Calls stay of type void, and the type of every other node is that of its first child:
      an expression is dword unless the operand reached by always going first is a call. */
  predicate IsDword(e: Expr) {
    match e
    case Const(_, _) => true
    case Load(lv) => IsDwordLval(lv)
    case AddrOf(lv) => IsDwordLval(lv)
    case Binary(_, l, _) => IsDword(l)
    case Compl(x) => IsDword(x)
    case Set(lv, _) => IsDwordLval(lv)
    case Pre(_, lv) => IsDwordLval(lv)
    case Post(_, lv) => IsDwordLval(lv)
    case Call(_, _) => false
  }

  predicate IsDwordLval(lv: Lval) { lv.LVar? || IsDword(lv.p) }

  /** Variables and constants are four bytes wide, and functions are called by their names.  Operands and steps
      are not restricted. */
  predicate Shaped(e: Expr) {
    match e
    case Const(k, _) => k == ValueInt || k == ValueLong || k == ValueString || k == ValueNull
    case Load(lv) => ShapedLval(lv)
    case AddrOf(lv) => ShapedLval(lv)
    case Binary(_, l, r) => Shaped(l) && Shaped(r)
    case Compl(x) => Shaped(x)
    case Set(lv, x) => ShapedLval(lv) && Shaped(x)
    case Pre(_, lv) => ShapedLval(lv)
    case Post(_, lv) => ShapedLval(lv)
    case Call(f, args) => f.SysCall? && ShapedArgs(args)
  }

  predicate ShapedLval(lv: Lval) {
    match lv
    case LVar(id) => (id.Var? || id.SysVar?) && DwordVar(id.ty)
    case LDeref(p) => Shaped(p)
  }

  predicate ShapedArgs(a: Args) {
    match a case NoArgs => true case Arg(e, rest) => Shaped(e) && ShapedArgs(rest)
  }

  /** In addition no operator has a call as its first operand, steps apply to finsh variables only,
      calls have at most 16 arguments. */
  predicate Compilable(e: Expr) {
    match e
    case Const(k, _) => k == ValueInt || k == ValueLong || k == ValueString || k == ValueNull
    case Load(lv) => CompilableLval(lv) && IsDwordLval(lv)
    case AddrOf(lv) => CompilableLval(lv)
    case Binary(_, l, r) => Compilable(l) && Compilable(r) && IsDword(l)
    case Compl(x) => Compilable(x) && IsDword(x)
    case Set(lv, x) => CompilableLval(lv) && IsDwordLval(lv) && Compilable(x)
    case Pre(_, lv) => CompilableLval(lv) && lv.LVar? && lv.id.Var?
    case Post(_, lv) => CompilableLval(lv) && lv.LVar? && lv.id.Var?
    case Call(f, args) => f.SysCall? && NumArgs(args) <= MAX_ARGS && CompilableArgs(args)
  }

  predicate CompilableLval(lv: Lval) {
    match lv
    case LVar(id) => (id.Var? || id.SysVar?) && DwordVar(id.ty)
    case LDeref(p) => Compilable(p)
  }

  predicate CompilableArgs(a: Args) {
    match a case NoArgs => true case Arg(e, rest) => Compilable(e) && CompilableArgs(rest)
  }

  lemma {:induction false} CompilableShaped(e: Expr)
    requires Compilable(e)
    ensures Shaped(e)
    decreases e
  {
    match e
    case Const(_, _) =>
    case Load(lv) => LvalShaped(lv);
    case AddrOf(lv) => LvalShaped(lv);
    case Binary(_, l, r) => CompilableShaped(l); CompilableShaped(r);
    case Compl(x) => CompilableShaped(x);
    case Set(lv, x) => LvalShaped(lv); CompilableShaped(x);
    case Pre(_, lv) =>
    case Post(_, lv) =>
    case Call(_, args) => ArgsShaped(args);
  }

  lemma {:induction false} LvalShaped(lv: Lval)
    requires CompilableLval(lv)
    ensures ShapedLval(lv)
    decreases lv
  {
    if lv.LDeref? { CompilableShaped(lv.p); }
  }

  lemma {:induction false} ArgsShaped(a: Args)
    requires CompilableArgs(a)
    ensures ShapedArgs(a)
    decreases a
  {
    if a.Arg? {
      CompilableShaped(a.e);
      ArgsShaped(a.rest);
    }
  }

  // ---- The code of an expression, and that the compiler emits it ----

  function I(i: Instr): seq<Machine.Byte> { [Opcode(i)] }

  function When(condition: bool, code: seq<Machine.Byte>): seq<Machine.Byte> { if condition then code else [] }

  function LdVar(at: Word): seq<Machine.Byte> { I(LdValue(W32)) + Bytes32(at) }

  function VarAddr(id: Ident): Word { if id.SysVar? then id.addr else SlotOf(id) }

  /** Load a variable, change it by one, store it: leaves its address on the stack. */
  function Update(up: bool, at: Word): seq<Machine.Byte> {
    LdVar(at) + LdConst(1) + I(Alu(if up then Add else Sub, W32)) + I(St(W32))
  }

  /** An operator has code of its own if its first operand is a dword, and a step if it is one of a variable;
      that always goes through the slot of a finsh variable. */
  function Code(e: Expr): seq<Machine.Byte> {
    match e
    case Const(_, v) => LdConst(v)
    case Load(lv) => CodeLoad(lv)
    case AddrOf(lv) => CodeAddr(lv)
    case Binary(op, l, r) => Code(l) + Code(r) + When(IsDword(l), I(Alu(op, W32)))
    case Compl(x) => Code(x) + When(IsDword(x), I(Not(W32)))
    case Set(lv, x) => CodeAddr(lv) + Code(x) + When(IsDwordLval(lv), I(St(W32)) + I(LdValueStack(W32)))
    case Pre(up, lv) => CodeAddr(lv) + PreCode(up, lv)
    case Post(up, lv) => CodeLoad(lv) + PostCode(up, lv)
    case Call(f, args) => LdConst(FuncOf(f)) + CodeArgs(args) + [Opcode(Syscall), NumArgs(args) % 0x100]
  }

  function FuncOf(f: Ident): Word { if f.SysCall? then f.func else 0 }

  function PreCode(up: bool, lv: Lval): seq<Machine.Byte> {
    match lv case LVar(id) => Update(up, SlotOf(id)) + I(LdValueStack(W32)) case LDeref(_) => []
  }

  function PostCode(up: bool, lv: Lval): seq<Machine.Byte> {
    match lv case LVar(id) => LdConst(SlotOf(id)) + Update(up, SlotOf(id)) + I(Pop) case LDeref(_) => []
  }

  function CodeLoad(lv: Lval): seq<Machine.Byte> {
    match lv case LVar(id) => LdVar(VarAddr(id)) case LDeref(p) => Code(p) + When(IsDword(p), I(LdValueStack(W32)))
  }

  function CodeAddr(lv: Lval): seq<Machine.Byte> {
    match lv case LVar(id) => LdConst(VarAddr(id)) case LDeref(p) => Code(p)
  }

  function CodeArgs(a: Args): seq<Machine.Byte> {
    match a case NoArgs => [] case Arg(e, rest) => Code(e) + CodeArgs(rest)
  }

  lemma CodeOfCall(f: Ident, args: Args)
    requires f.SysCall? && NumArgs(args) <= MAX_ARGS
    ensures Code(Call(f, args)) == LdConst(f.func) + CodeArgs(args) + [Opcode(Syscall), NumArgs(args)]
  {
  }

  lemma CodeOfBinary(op: AluOp, l: Expr, r: Expr)
    requires IsDword(l)
    ensures Code(Binary(op, l, r)) == Code(l) + Code(r) + I(Alu(op, W32))
  {
  }

  lemma CodeOfSet(lv: Lval, x: Expr)
    requires IsDwordLval(lv)
    ensures Code(Set(lv, x)) == CodeAddr(lv) + Code(x) + (I(St(W32)) + I(LdValueStack(W32)))
  {
  }

  function TypeIf(dword: bool): DataType { if dword then Dword else Void }

  /** The code of a checked node is that of its child, its own, and that of its sibling. */
  lemma Parts(k: NodeType, c: Tree, next: Tree, mode: bool, c': Tree, code: seq<Machine.Byte>)
    requires c' == Check(c, ChildMode(k, mode)) && c'.Node? && Emit(c') == code
    ensures var t := Check(Plain(k, c, next), mode);
            t.Node? && t.a.dtype == c'.a.dtype &&
            Emit(t) == code + EmitNode(Attr(k, c'.a.dtype, mode, NoIdent, 0), FirstOf(c')) + Emit(Check(next, false))
  {
  }

  lemma OwnId(a: Attr)
    requires a.kind == Id && (((a.id.Var? || a.id.SysVar?) && DwordVar(a.id.ty)) || a.id.SysCall?)
    ensures EmitNode(a, NoChild) == if a.id.SysCall? then LdConst(a.id.func)
                                else if a.addr then LdConst(VarAddr(a.id)) else LdVar(VarAddr(a.id))
  {
  }

  lemma EmitLeaf(a: Attr, s: Tree)
    ensures Emit(Node(a, Nil, s)) == EmitNode(a, NoChild) + Emit(s)
  {
  }

  /** The code of an identifier is that of its leaf and whatever follows it. */
  lemma Leaf(id: Ident, next: Tree, mode: bool)
    requires ((id.Var? || id.SysVar?) && DwordVar(id.ty)) || id.SysCall?
    ensures var t := Check(Node(Attr(Id, Void, false, id, 0), Nil, next), mode);
            t.Node? && t.a.id == id && t.a.kind == Id && t.sibling == Check(next, false) &&
            t.a.dtype == (if id.SysCall? then Void else Dword) &&
            Emit(t) == (if id.SysCall? then LdConst(id.func)
                        else if mode then LdConst(VarAddr(id)) else LdVar(VarAddr(id))) + Emit(Check(next, false))
  {
    var t := Check(Node(Attr(Id, Void, false, id, 0), Nil, next), mode);
    EmitLeaf(t.a, t.sibling);
    OwnId(t.a);
    hide EmitNode;
  }

  /** The own code of operator nodes: none if the first child is a call. */
  lemma Own(a: Attr, child: First)
    requires (a.dtype == Dword || a.dtype == Void) && child.Child? && child.a.dtype == a.dtype
    ensures a.kind.SysAlu? ==> EmitNode(a, child) == When(a.dtype == Dword, I(Alu(a.kind.op, W32)))
    ensures a.kind == Bitwise ==> EmitNode(a, child) == When(a.dtype == Dword, I(Not(W32)))
    ensures a.kind == GetValue ==> EmitNode(a, child) == When(a.dtype == Dword && !a.addr, I(LdValueStack(W32)))
    ensures a.kind == Assign && (child.a.kind == Id || child.a.kind == GetValue) ==>
              EmitNode(a, child) == When(a.dtype == Dword, I(St(W32)) + I(LdValueStack(W32)))
  {
  }

  /** A step of something that is not a variable has none. */
  lemma OwnNothing(a: Attr, child: First)
    requires child.Child? && child.a.kind != Id
    requires a.kind == PreInc || a.kind == PreDec || a.kind == Inc || a.kind == Dec
    ensures EmitNode(a, child) == []
  {
  }

  lemma StepCodeIs(op: AluOp, at: Word)
    requires op == Add || op == Sub
    ensures StepCode(op, Dword, at) == Update(op == Add, at)
  {
    hide Bytes32;
    assert StepCode(op, Dword, at) == LdVar(at) + LdConst(1) + I(Alu(op, W32)) + I(St(W32));
  }

  lemma OwnPre(a: Attr, child: First, up: bool)
    requires a.dtype == Dword && a.kind == (if up then PreInc else PreDec)
    requires child.Child? && child.a.kind == Id
    ensures EmitNode(a, child) == Update(up, SlotOf(child.a.id)) + I(LdValueStack(W32))
  {
    hide StepCode, Update;
    StepCodeIs(if up then Add else Sub, SlotOf(child.a.id));
  }

  lemma OwnPost(a: Attr, child: First, up: bool)
    requires a.dtype == Dword && a.kind == (if up then Inc else Dec)
    requires child.Child? && child.a.kind == Id
    ensures EmitNode(a, child) == LdConst(SlotOf(child.a.id)) + Update(up, SlotOf(child.a.id)) + I(Pop)
  {
    hide StepCode, Update, LdConst;
    StepCodeIs(if up then Add else Sub, SlotOf(child.a.id));
  }

  lemma OwnCall(a: Attr, child: First)
    requires a.kind == Func && child.Child?
    ensures EmitNode(a, child) == [Opcode(Syscall), child.params % 0x100]
  {
  }

  /** Type check and code emission of the tree of an expression, with whatever follows it. */
  lemma {:induction false} Emits(e: Expr, next: Tree)
    requires Shaped(e)
    ensures Emit(Check(Build(e, next), false)) == Code(e) + Emit(Check(next, false))
    ensures Check(Build(e, next), false).Node?
    ensures Check(Build(e, next), false).a.dtype == TypeIf(IsDword(e))
    decreases e
  {
    hide Emit, Check, EmitNode, BuildLval, BuildArgs;
    match e
    case Const(k, v) => EmitsConst(k, v, next);
    case Load(lv) => EmitsLoad(lv, next);
    case AddrOf(lv) => EmitsAddrOf(lv, next);
    case Binary(op, l, r) => EmitsBinary(op, l, r, next);
    case Compl(x) => EmitsCompl(x, next);
    case Set(lv, x) => EmitsSet(lv, x, next);
    case Pre(up, lv) => EmitsPre(up, lv, next);
    case Post(up, lv) => EmitsPost(up, lv, next);
    case Call(f, args) => EmitsCall(f, args, next);
  }

  lemma EmitsConst(k: NodeType, v: Word, next: Tree)
    requires Shaped(Const(k, v))
    ensures var t := Check(Build(Const(k, v), next), false);
            t.Node? && Emit(t) == LdConst(v) + Emit(Check(next, false)) && t.a.dtype == Dword
  {
    hide LdConst;
  }

  lemma {:induction false} EmitsAddrOf(lv: Lval, next: Tree)
    requires ShapedLval(lv)
    ensures var t := Check(Build(AddrOf(lv), next), false);
            t.Node? && Emit(t) == CodeAddr(lv) + Emit(Check(next, false)) && t.a.dtype == TypeIf(IsDwordLval(lv))
    decreases AddrOf(lv), 0
  {
    EmitsAddr(lv, Nil);
    var c := BuildLval(lv, Nil);
    var c' := Check(c, true);
    Parts(GetAddr, c, next, false, c', CodeAddr(lv));
    assert EmitNode(Attr(GetAddr, c'.a.dtype, false, NoIdent, 0), FirstOf(c')) == [];
    hide EmitNode;
  }

  lemma {:induction false} EmitsBinary(op: AluOp, l: Expr, r: Expr, next: Tree)
    requires Shaped(Binary(op, l, r))
    ensures var t := Check(Build(Binary(op, l, r), next), false);
            t.Node? && Emit(t) == Code(Binary(op, l, r)) + Emit(Check(next, false)) && t.a.dtype == TypeIf(IsDword(l))
    decreases Binary(op, l, r), 0
  {
    hide EmitNode;
    var c2 := Build(r, Nil);
    var c := Build(l, c2);
    Emits(r, Nil);
    Emits(l, c2);
    var c' := Check(c, false);
    Parts(SysAlu(op), c, next, false, c', Code(l) + Code(r));
    Own(Attr(SysAlu(op), c'.a.dtype, false, NoIdent, 0), FirstOf(c'));
  }

  lemma {:induction false} EmitsCompl(x: Expr, next: Tree)
    requires Shaped(Compl(x))
    ensures var t := Check(Build(Compl(x), next), false);
            t.Node? && Emit(t) == Code(Compl(x)) + Emit(Check(next, false)) && t.a.dtype == TypeIf(IsDword(x))
    decreases Compl(x), 0
  {
    hide EmitNode;
    Emits(x, Nil);
    var c := Build(x, Nil);
    var c' := Check(c, false);
    Parts(Bitwise, c, next, false, c', Code(x));
    Own(Attr(Bitwise, c'.a.dtype, false, NoIdent, 0), FirstOf(c'));
  }

  lemma {:induction false} EmitsSet(lv: Lval, x: Expr, next: Tree)
    requires Shaped(Set(lv, x))
    ensures var t := Check(Build(Set(lv, x), next), false);
            t.Node? && Emit(t) == Code(Set(lv, x)) + Emit(Check(next, false)) && t.a.dtype == TypeIf(IsDwordLval(lv))
    decreases Set(lv, x), 0
  {
    hide EmitNode;
    var c2 := Build(x, Nil);
    var c := BuildLval(lv, c2);
    Emits(x, Nil);
    EmitsAddr(lv, c2);
    var c' := Check(c, true);
    Parts(Assign, c, next, false, c', CodeAddr(lv) + Code(x));
    Own(Attr(Assign, c'.a.dtype, false, NoIdent, 0), FirstOf(c'));
  }

  lemma {:induction false} EmitsLoad(lv: Lval, next: Tree)
    requires ShapedLval(lv)
    ensures var t := Check(BuildLval(lv, next), false);
            t.Node? && Emit(t) == CodeLoad(lv) + Emit(Check(next, false)) &&
            t.a.kind == (if lv.LVar? then Id else GetValue) && t.a.dtype == TypeIf(IsDwordLval(lv))
    decreases lv
  {
    hide EmitNode;
    match lv
    case LVar(id) => Leaf(id, next, false);
    case LDeref(p) =>
      Emits(p, Nil);
      var c := Build(p, Nil);
      var c' := Check(c, false);
      Parts(GetValue, c, next, false, c', Code(p));
      Own(Attr(GetValue, c'.a.dtype, false, NoIdent, 0), FirstOf(c'));
  }

  lemma {:induction false} EmitsAddr(lv: Lval, next: Tree)
    requires ShapedLval(lv)
    ensures var t := Check(BuildLval(lv, next), true);
            t.Node? && Emit(t) == CodeAddr(lv) + Emit(Check(next, false)) &&
            t.a.kind == (if lv.LVar? then Id else GetValue) && t.a.dtype == TypeIf(IsDwordLval(lv))
    decreases lv
  {
    match lv
    case LVar(id) => Leaf(id, next, true);
    case LDeref(p) =>
      Emits(p, Nil);
      var c := Build(p, Nil);
      Parts(GetValue, c, next, true, Check(c, false), Code(p));
  }

  lemma {:induction false} EmitsPre(up: bool, lv: Lval, next: Tree)
    requires ShapedLval(lv)
    ensures var t := Check(Build(Pre(up, lv), next), false);
            t.Node? && Emit(t) == Code(Pre(up, lv)) + Emit(Check(next, false)) && t.a.dtype == TypeIf(IsDwordLval(lv))
    decreases Pre(up, lv), 0
  {
    hide EmitNode, Update, LdConst;
    var k := if up then PreInc else PreDec;
    var c := BuildLval(lv, Nil);
    EmitsAddr(lv, Nil);
    var c' := Check(c, true);
    Parts(k, c, next, false, c', CodeAddr(lv));
    match lv
    case LVar(id) =>
      Leaf(id, Nil, true);
      OwnPre(Attr(k, c'.a.dtype, false, NoIdent, 0), FirstOf(c'), up);
    case LDeref(_) => OwnNothing(Attr(k, c'.a.dtype, false, NoIdent, 0), FirstOf(c'));
  }

  lemma {:induction false} EmitsPost(up: bool, lv: Lval, next: Tree)
    requires ShapedLval(lv)
    ensures var t := Check(Build(Post(up, lv), next), false);
            t.Node? && Emit(t) == Code(Post(up, lv)) + Emit(Check(next, false)) && t.a.dtype == TypeIf(IsDwordLval(lv))
    decreases Post(up, lv), 0
  {
    hide EmitNode, Update, LdConst;
    var k := if up then Inc else Dec;
    var c := BuildLval(lv, Nil);
    EmitsLoad(lv, Nil);
    var c' := Check(c, false);
    Parts(k, c, next, false, c', CodeLoad(lv));
    match lv
    case LVar(id) =>
      Leaf(id, Nil, false);
      OwnPost(Attr(k, c'.a.dtype, false, NoIdent, 0), FirstOf(c'), up);
    case LDeref(_) => OwnNothing(Attr(k, c'.a.dtype, false, NoIdent, 0), FirstOf(c'));
  }

  lemma {:induction false} EmitsCall(f: Ident, args: Args, next: Tree)
    requires Shaped(Call(f, args))
    ensures var t := Check(Build(Call(f, args), next), false);
            t.Node? && Emit(t) == Code(Call(f, args)) + Emit(Check(next, false)) && t.a.dtype == Void
    decreases args, 1
  {
    hide EmitNode;
    EmitsArgs(args);
    var params := BuildArgs(args);
    var c := Node(Attr(Id, Void, false, f, 0), Nil, params);
    Leaf(f, params, false);
    var c' := Check(c, false);
    Parts(Func, c, next, false, c', LdConst(f.func) + CodeArgs(args));
    OwnCall(Attr(Func, c'.a.dtype, false, NoIdent, 0), FirstOf(c'));
  }

  lemma {:induction false} EmitsArgs(a: Args)
    requires ShapedArgs(a)
    ensures Emit(Check(BuildArgs(a), false)) == CodeArgs(a)
    ensures Siblings(Check(BuildArgs(a), false)) == NumArgs(a)
    decreases a, 0
  {
    match a
    case NoArgs =>
    case Arg(e, rest) =>
      hide Emit, Check, EmitNode, Build, Code;
      var c2 := BuildArgs(rest);
      Emits(e, c2);
      EmitsArgs(rest);
      SiblingsOf(e, c2);
  }

  lemma SiblingsOf(e: Expr, next: Tree)
    requires Check(Build(e, next), false).Node?
    ensures Siblings(Check(Build(e, next), false)) == 1 + Siblings(Check(next, false))
  {
    var t := Build(e, next);
    assert t.sibling == next by { if e.Load? { assert BuildLval(e.lv, next).sibling == next; } }
  }
}
