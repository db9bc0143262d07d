/** Calls as first operands: what is emitted, what is refused, what the emitted code computes, and when that is
    right. */
module FinshCalls {
  import opened Machine
  import opened FinshAlu
  import opened FinshVm
  import opened FinshTree
  import opened FinshCompiler
  import opened FinshCorrect
  import opened FinshErrors

  // ---- What is emitted ----

  /** The opcode of a binary operator is emitted exactly when its first operand is not, along its
      first operands, a call. */
  lemma OperatorEmittedIffDword(op: AluOp, l: Expr, r: Expr)
    requires Shaped(l) && Shaped(r)
    ensures Emit(Check(Build(Binary(op, l, r), Nil), false)) ==
            Code(l) + Code(r) + (if IsDword(l) then I(Alu(op, W32)) else [])
    ensures Compilable(l) && Compilable(r) ==> (Compilable(Binary(op, l, r)) <==> IsDword(l))
  {
    hide Emit, Check, Build;
    Emits(Binary(op, l, r), Nil);
    EmitNil();
  }

  /** ... and so are those of a complement ... */
  lemma ComplementEmittedIffDword(p: Expr)
    requires Shaped(p)
    ensures Emit(Check(Build(Compl(p), Nil), false)) == Code(p) + (if IsDword(p) then I(Not(W32)) else [])
    ensures Compilable(p) ==> (Compilable(Compl(p)) <==> IsDword(p))
  {
    hide Emit, Check, Build;
    Emits(Compl(p), Nil);
    EmitNil();
  }

  /** ... and of a dereference. */
  lemma LoadEmittedIffDword(p: Expr)
    requires Shaped(p)
    ensures Emit(Check(Build(Load(LDeref(p)), Nil), false)) ==
            Code(p) + (if IsDword(p) then I(LdValueStack(W32)) else [])
    ensures Compilable(p) ==> (Compilable(Load(LDeref(p))) <==> IsDword(p))
  {
    hide Emit, Check, Build;
    Emits(Load(LDeref(p)), Nil);
    EmitNil();
  }

  /** An assignment through such a pointer has no code of its own ... */
  lemma AssignmentEmittedIffDword(p: Expr, x: Expr)
    requires Shaped(p) && Shaped(x)
    ensures Emit(Check(Build(Set(LDeref(p), x), Nil), false)) ==
            Code(p) + Code(x) + (if IsDword(p) then I(St(W32)) + I(LdValueStack(W32)) else [])
  {
    hide Emit, Check, Build;
    Emits(Set(LDeref(p), x), Nil);
    EmitNil();
  }

  /** ... and is what the compiler refuses. */
  lemma AssignmentRefusedIffCall(p: Expr, x: Expr)
    requires Shaped(p) && Shaped(x)
    ensures ErrorOf(Check(Build(Set(LDeref(p), x), Nil), false)) ==
            if IsDword(p) && !Refused(p) && !Refused(x) then OK else UNKNOWN_TYPE
    ensures Compilable(p) && Compilable(x) ==>
              !Refused(p) && !Refused(x) && (Compilable(Set(LDeref(p), x)) <==> IsDword(p))
  {
    hide Check, Build, ErrorOf, Code;
    Errors(Set(LDeref(p), x), Nil);
    NilErrors();
    if Compilable(p) && Compilable(x) {
      CompilableAccepted(p);
      CompilableAccepted(x);
    }
  }

  lemma EmitNil()
    ensures Emit(Check(Nil, false)) == []
  {
  }

  // ---- Other widths ----

  /** The number that an opcode has beyond that of the operation on bytes, and a constant one in each width. */
  function WidthOf(d: DataType): nat { match d case Void => 0 case Byte => 0 case Word => 1 case Dword => 2 }

  function OneIn(d: DataType): seq<Machine.Byte> {
    match d
    case Void => []
    case Byte => [0x22, 1]
    case Word => [0x23, 1, 0]
    case Dword => [0x24, 1, 0, 0, 0]
  }

  /** Operators are emitted in the width of their node: arithmetic, complement, dereference and assignment. */
  lemma OperatorWidths(d: DataType, addr: bool, child: First)
    requires d != Void && child.Child? && child.a.dtype == d && (child.a.kind == Id || child.a.kind == GetValue)
    ensures forall op :: EmitNode(Attr(SysAlu(op), d, addr, NoIdent, 0), child) == [AluBase(op) + WidthOf(d)]
    ensures EmitNode(Attr(Bitwise, d, addr, NoIdent, 0), child) == [0x19 + WidthOf(d)]
    ensures EmitNode(Attr(GetValue, d, addr, NoIdent, 0), child) == if addr then [] else [0x2D + WidthOf(d)]
    ensures EmitNode(Attr(Assign, d, addr, NoIdent, 0), child) == [0x28 + WidthOf(d), 0x2D + WidthOf(d)]
  {
  }

  /** So are steps, but that before a variable the new value is loaded again as four bytes. */
  lemma StepWidths(d: DataType, up: bool, addr: bool, child: First)
    requires d != Void && child.Child? && child.a.kind == Id
    ensures var at, w := Bytes32(SlotOf(child.a.id)), WidthOf(d);
            var change := [0x25 + w] + at + OneIn(d) + [(if up then 0x01 else 0x04) + w] + [0x28 + w];
            && EmitNode(Attr(if up then PreInc else PreDec, d, addr, NoIdent, 0), child) == change + [0x2F]
            && EmitNode(Attr(if up then Inc else Dec, d, addr, NoIdent, 0), child) == [0x24] + at + change + [0x2B]
  {
    hide StepCode, Bytes32, OneIn;
    ChangeWidths(if up then Add else Sub, d, SlotOf(child.a.id));
  }

  lemma ChangeWidths(op: AluOp, d: DataType, slot: Word)
    requires d != Void && (op == Add || op == Sub)
    ensures var w := WidthOf(d);
            StepCode(op, d, slot) ==
            [0x25 + w] + Bytes32(slot) + OneIn(d) + [(if op == Add then 0x01 else 0x04) + w] + [0x28 + w]
  {
    OneBytes();
    hide Bytes32;
  }

  lemma OneBytes()
    ensures Bytes32(1) == [1, 0, 0, 0]
  {
    assert LittleEndian(0, 1) == [0] && LittleEndian(0, 2) == [0, 0] && LittleEndian(0, 3) == [0, 0, 0];
  }

  /** And variables are loaded in the width of their type, or their address. */
  lemma VariableWidths(ty: FinshType, slot: Word, addr: bool)
    ensures var code := EmitNode(Attr(Id, TypeOf(ty, Void), addr, Var(ty, slot), 0), NoChild);
            code == if ty == TUnknown || ty == TVoid || ty == TVoidP then []
                    else if addr then [0x24] + Bytes32(slot)
                    else [0x25 + WidthOf(TypeOf(ty, Void))] + Bytes32(slot)
  {
    hide Bytes32;
  }

  // ---- What it computes ----

  lemma ExecutesTwo(l: Expr, r: Expr, m: Memory, sys: System, text: seq<Machine.Byte>, room: nat)
    requires Compilable(l) && Compilable(r) && text == Code(l) + Code(r)
    requires Eval(l, m, sys).Some? && Eval(r, Eval(l, m, sys).value.1, sys).Some?
    requires Nodes(l) + Nodes(r) + 3 <= room
    ensures var (x, m1) := Eval(l, m, sys).value;
            var (y, m2) := Eval(r, m1, sys).value;
            Exec(text, State(0, [], m), room, sys) == Running(State(|text|, [x, y], m2))
  {
    hide Code, Compilable, Eval, Exec, Nodes;
    AtSplit(text, 0, Code(l), Code(r));
    var s := State(0, [], m);
    Executes(l, text, s, room, sys);
    var (x, m1) := Eval(l, m, sys).value;
    var s1 := State(|Code(l)|, [x], m1);
    assert s.stack + [x] == [x];
    Executes(r, text, s1, room, sys);
    var (y, m2) := Eval(r, m1, sys).value;
    assert s1.stack + [y] == [x, y];
    ExecEnds(text, State(|text|, [x, y], m2), room, sys);
  }

  /** With a call there, as in f() + 1, the machine leaves both operands on the stack, so the result slot holds
      the left operand. */
  lemma CallAsFirstOperandFails(op: AluOp, l: Expr, r: Expr, m: Memory, sys: System, text: seq<Machine.Byte>, room: nat)
    requires Compilable(l) && Compilable(r) && !IsDword(l)
    requires Eval(l, m, sys).Some? && Eval(r, Eval(l, m, sys).value.1, sys).Some?
    requires text == Emit(Check(Build(Binary(op, l, r), Nil), false)) && Nodes(l) + Nodes(r) + 3 <= room
    ensures var (x, m1) := Eval(l, m, sys).value;
            var (y, m2) := Eval(r, m1, sys).value;
            Exec(text, State(0, [], m), room, sys) == Running(State(|text|, [x, y], m2))
  {
    hide Emit, Check, Build, Code, Compilable, EmitNode, Eval, Exec;
    CompilableShaped(l);
    CompilableShaped(r);
    OperatorEmittedIffDword(op, l, r);
    assert text == Code(l) + Code(r);
    ExecutesTwo(l, r, m, sys, text, room);
  }

  /** A statement that is one expression, from its code to the end of the machine. */
  lemma RunsTo(e: Expr, m: Memory, sys: System, text: seq<Machine.Byte>, room: nat)
    requires Compilable(e) && Eval(e, m, sys).Some? && text == Code(e) && Nodes(e) + 2 <= room
    ensures var (v, m') := Eval(e, m, sys).value;
            Exec(text, State(0, [], m), room, sys) == Running(State(|text|, [v], m'))
  {
    hide Code, Compilable, Eval, Exec, Nodes;
    var s := State(0, [], m);
    var (v, m') := Eval(e, m, sys).value;
    Executes(e, text, s, room, sys);
    assert s.stack + [v] == [v];
    ExecEnds(text, State(|text|, [v], m'), room, sys);
  }

  /** Compiled and run, a binary operation of such operands gives what the evaluator says if and only if the
      first one does not go to a call. */
  lemma BinaryExact(op: AluOp, l: Expr, r: Expr, m: Memory, sys: System, text: seq<Machine.Byte>, room: nat)
    requires Compilable(l) && Compilable(r) && Eval(Binary(op, l, r), m, sys).Some?
    requires text == Emit(Check(Build(Binary(op, l, r), Nil), false)) && Nodes(l) + Nodes(r) + 3 <= room
    ensures var (v, m') := Eval(Binary(op, l, r), m, sys).value;
            Exec(text, State(0, [], m), room, sys) == Running(State(|text|, [v], m')) <==> IsDword(l)
  {
    if IsDword(l) {
      CompilableShaped(Binary(op, l, r));
      OperatorEmittedIffDword(op, l, r);
      BinaryNodes(op, l, r);
      RunsTo(Binary(op, l, r), m, sys, text, room);
    } else {
      CallAsFirstOperandFails(op, l, r, m, sys, text, room);
    }
  }

  lemma BinaryNodes(op: AluOp, l: Expr, r: Expr)
    ensures Nodes(Binary(op, l, r)) == 1 + Nodes(l) + Nodes(r)
  {
    CountBuild(l, Build(r, Nil));
    CountNode(Attr(SysAlu(op), Void, false, NoIdent, 0), Build(l, Build(r, Nil)), Nil);
  }

  /** The complement of a call is never right: it is the call. */
  lemma ComplementExact(p: Expr, m: Memory, sys: System, text: seq<Machine.Byte>, room: nat)
    requires Compilable(p) && Eval(p, m, sys).Some?
    requires text == Emit(Check(Build(Compl(p), Nil), false)) && Nodes(p) + 3 <= room
    ensures var (v, m') := Eval(Compl(p), m, sys).value;
            Exec(text, State(0, [], m), room, sys) == Running(State(|text|, [v], m')) <==> IsDword(p)
  {
    hide Emit, Check, Build, Code, Exec, Complement;
    CompilableShaped(p);
    ComplementEmittedIffDword(p);
    if IsDword(p) {
      CodeOfComplement(p);
      RunsTo(Compl(p), m, sys, text, room);
    } else {
      RunsTo(p, m, sys, text, room);
      NeverItself(Eval(p, m, sys).value.0);
    }
  }

  lemma CodeOfComplement(p: Expr)
    requires Compilable(p) && IsDword(p)
    ensures Code(Compl(p)) == Code(p) + I(Not(W32)) && Nodes(Compl(p)) == 1 + Nodes(p)
  {
    CountNode(Attr(Bitwise, Void, false, NoIdent, 0), Build(p, Nil), Nil);
  }

  lemma NeverItself(v: Word)
    ensures Complement(v) != v
  {
  }

  /** The word that a call points to is right only if it is its own address: it is the call. */
  lemma LoadExact(p: Expr, m: Memory, sys: System, text: seq<Machine.Byte>, room: nat)
    requires Compilable(p) && Eval(p, m, sys).Some?
    requires text == Emit(Check(Build(Load(LDeref(p)), Nil), false)) && Nodes(p) + 3 <= room
    ensures var (a, m1) := Eval(p, m, sys).value;
            Exec(text, State(0, [], m), room, sys) == Running(State(|text|, [LoadDword(m1, a)], m1)) <==>
            IsDword(p) || LoadDword(m1, a) == a
  {
    hide Emit, Check, Build, Code, Exec, LoadDword;
    CompilableShaped(p);
    LoadEmittedIffDword(p);
    if IsDword(p) {
      CodeOfLoad(p);
      RunsTo(Load(LDeref(p)), m, sys, text, room);
    } else {
      RunsTo(p, m, sys, text, room);
    }
  }

  lemma CodeOfLoad(p: Expr)
    requires Compilable(p) && IsDword(p)
    ensures Code(Load(LDeref(p))) == Code(p) + I(LdValueStack(W32)) && Nodes(Load(LDeref(p))) == 1 + Nodes(p)
  {
    CountNode(Attr(GetValue, Void, false, NoIdent, 0), Build(p, Nil), Nil);
    assert Build(Load(LDeref(p)), Nil) == BuildLval(LDeref(p), Nil) == Plain(GetValue, Build(p, Nil), Nil);
  }
}
