/** The syntax tree of finsh and what finsh_compiler.c does with it, as functions on trees.
    A tree node has its first child and its next sibling, as in finsh_parser.c.  */
module FinshTree {
  import opened Machine
  import opened FinshAlu
  import opened FinshVm

  // The error codes of finsh.h that the type check and the compiler set.
  const OK := 0
  const UNKNOWN_TYPE := 3
  const UNKNOWN_NODE := 8

  /** node_type. */
  datatype NodeType =
    | Id | ValueChar | ValueInt | ValueLong | ValueString | ValueNull
    | SysAlu(op: AluOp) | Bitwise
    | Func | Assign | Cast | PreInc | PreDec | Inc | Dec | GetValue | GetAddr | SysNull

  /** data_type. */
  datatype DataType = Void | Byte | Word | Dword

  /** enum finsh_type. */
  datatype FinshType =
    | TUnknown | TVoid | TVoidP | TChar | TUchar | TCharP | TShort | TUshort | TShortP
    | TInt | TUint | TIntP | TLong | TUlong | TLongP

  /** The id union of a node together with the VAR, SYSVAR and SYSCALL bits of idtype.
      `slot` is the address &(id.var->value), which the increment code takes whatever the
      identifier is; it is the variable's own address only for a finsh variable. */
  datatype Ident =
    | NoIdent
    | Var(ty: FinshType, slot: Word)
    | SysVar(ty: FinshType, addr: Word, slot: Word)
    | SysCall(func: Word, slot: Word)

  /** One struct finsh_node without its links; `addr` is the ADDRESS bit of idtype. */
  datatype Attr = Attr(kind: NodeType, dtype: DataType, addr: bool, id: Ident, value: Word)

  datatype Tree = Nil | Node(a: Attr, child: Tree, sibling: Tree)

  function Count(t: Tree): nat { if t.Nil? then 0 else 1 + Count(t.child) + Count(t.sibling) }

  function Siblings(t: Tree): nat { if t.Nil? then 0 else 1 + Siblings(t.sibling) }

  // ---- finsh_type_check ----

  /** The data type of a variable; an unknown type leaves the old one. */
  function TypeOf(ty: FinshType, old_: DataType): DataType {
    match ty
    case TUnknown => old_
    case TVoid => Void
    case TChar => Byte case TUchar => Byte
    case TShort => Word case TUshort => Word
    case _ => Dword
  }

  function LeafType(a: Attr): DataType {
    match a.kind
    case Id => if a.id.Var? || a.id.SysVar? then TypeOf(a.id.ty, a.dtype) else a.dtype
    case ValueChar => Byte
    case ValueInt => Dword case ValueLong => Dword case ValueString => Dword case ValueNull => Dword
    case _ => a.dtype
  }

  /** Whether the child of a node is checked as an address. */
  function ChildMode(k: NodeType, isAddr: bool): bool {
    match k
    case Assign => true case PreInc => true case PreDec => true case GetAddr => true
    case GetValue => false
    case _ => isAddr
  }

  function Annotate(a: Attr, isAddr: bool, child: Tree): Attr {
    a.(addr := if a.id.SysCall? && !a.addr then false else a.addr || isAddr,
       dtype := if child.Node? then child.a.dtype else LeafType(a))
  }

  function Check(t: Tree, isAddr: bool): Tree {
    match t
    case Nil => Nil
    case Node(a, c, s) =>
      var c' := Check(c, ChildMode(a.kind, isAddr));
      Node(Annotate(a, isAddr, c'), c', Check(s, false))
  }

  /** Whether the type check meets an identifier of unknown type: it sets UNKNOWN_TYPE. */
  predicate Untyped(t: Tree) {
    match t
    case Nil => false
    case Node(a, c, s) =>
      Untyped(c) || Untyped(s) || (c.Nil? && a.kind == Id && (a.id.Var? || a.id.SysVar?) && a.id.ty == TUnknown)
  }

  // ---- finsh_compile ----

  /** An operation in the width of a data type, given its byte form; void has no such operation. */
  function Sized(i: Instr, d: DataType): seq<Machine.Byte>
    requires Opcode(i) <= 0x2D
  {
    match d case Void => [] case Byte => [Opcode(i)] case Word => [Opcode(i) + 1] case Dword => [Opcode(i) + 2]
  }

  /** Push a 32-bit constant. */
  function LdConst(v: Word): seq<Machine.Byte> { [Opcode(Ld(W32))] + Bytes32(v) }

  /** Load a variable: its address, or its value in its own width.  No code at all is emitted
      for a variable of type void or void pointer. */
  function LoadId(ty: FinshType, at: Word, isAddr: bool): seq<Machine.Byte> {
    match ty
    case TUnknown => [] case TVoid => [] case TVoidP => []
    case _ =>
      if isAddr then LdConst(at)
      else [Opcode(LdValue(match ty
                           case TChar => W8 case TUchar => W8
                           case TShort => W16 case TUshort => W16
                           case _ => W32))] + Bytes32(at)
  }

  /** A constant one in a given width. */
  function LoadOne(d: DataType): seq<Machine.Byte> {
    match d
    case Void => []
    case Byte => [Opcode(Ld(W8)), 1]
    case Word => [Opcode(Ld(W16)), 1, 0]
    case Dword => LdConst(1)
  }

  /** value + 1 or value - 1, stored at the address below it on the stack. */
  function StepCode(op: AluOp, d: DataType, at: Word): seq<Machine.Byte>
    requires d != Void
  {
    Sized(LdValue(W8), d) + Bytes32(at) + LoadOne(d) + Sized(Alu(op, W8), d) + Sized(St(W8), d)
  }

  /** &(id.var->value), also for a null pointer: the offset of the value in struct finsh_var. */
  function SlotOf(id: Ident): Word { if id.NoIdent? then 20 else id.slot }

  /** What a node's own code depends on below it: its first child, and that child's siblings. */
  datatype First = NoChild | Child(a: Attr, params: nat)

  function FirstOf(t: Tree): First { if t.Nil? then NoChild else Child(t.a, Siblings(t.sibling)) }

  function PreStepCode(op: AluOp, d: DataType, child: First): seq<Machine.Byte> {
    if child.NoChild? || child.a.kind != Id || d == Void then []
    else StepCode(op, d, SlotOf(child.a.id)) + [Opcode(LdValueStack(W32))]
  }

  function PostStepCode(op: AluOp, d: DataType, child: First): seq<Machine.Byte> {
    if child.NoChild? || child.a.kind != Id || d == Void then []
    else LdConst(SlotOf(child.a.id)) + StepCode(op, d, SlotOf(child.a.id)) + [Opcode(Pop)]
  }

  /** The switch of finsh_compile: the code of one node, after the code of its children. */
  function EmitNode(a: Attr, child: First): seq<Machine.Byte> {
    match a.kind
    case Id =>
      (match a.id
       case NoIdent => []
       case Var(ty, at) => LoadId(ty, at, a.addr)
       case SysVar(ty, at, _) => LoadId(ty, at, a.addr)
       case SysCall(f, _) => LdConst(f))
    case ValueChar => [Opcode(Ld(W8)), a.value % 0x100]
    case ValueInt => LdConst(a.value)
    case ValueLong => LdConst(a.value)
    case ValueNull => LdConst(a.value)
    case ValueString => LdConst(a.value)
    case SysAlu(op) => Sized(Alu(op, W8), a.dtype)
    case Bitwise => Sized(Not(W8), a.dtype)
    case Func => if child.NoChild? then [] else [Opcode(Syscall), child.params % 0x100]
    case Assign =>
      if child.Child? && (child.a.kind == Id || child.a.kind == GetValue)
      then Sized(St(W8), child.a.dtype) + Sized(LdValueStack(W8), child.a.dtype) else []
    case PreInc => PreStepCode(Add, a.dtype, child)
    case PreDec => PreStepCode(Sub, a.dtype, child)
    case Inc => PostStepCode(Add, a.dtype, child)
    case Dec => PostStepCode(Sub, a.dtype, child)
    case SysNull => Bytes32(0)
    case GetValue => if a.addr then [] else Sized(LdValueStack(W8), a.dtype)
    case GetAddr => []
    case Cast => []
  }

  function Emit(t: Tree): seq<Machine.Byte> {
    match t
    case Nil => []
    case Node(a, c, s) => Emit(c) + EmitNode(a, FirstOf(c)) + Emit(s)
  }

  /** The error that the code of one node sets. */
  function NodeError(a: Attr, child: First): nat {
    if a.kind == Cast then UNKNOWN_NODE
    else if a.kind == Assign && child.Child? && child.a.dtype == Void then
      if child.a.kind == Id || child.a.kind == GetValue then UNKNOWN_TYPE else OK
    else OK
  }

  /** finsh_errno keeps the last error. */
  function Later(before: nat, error: nat): nat { if error != OK then error else before }

  function ErrorOf(t: Tree): nat {
    match t
    case Nil => OK
    case Node(a, c, s) => Later(Later(ErrorOf(c), NodeError(a, FirstOf(c))), ErrorOf(s))
  }

  /** finsh_compiler_run on the chain of statements: each without its sibling, with a pop between. */
  function EmitList(t: Tree): seq<Machine.Byte> {
    match t
    case Nil => []
    case Node(a, c, s) =>
      Emit(Node(a, c, Nil)) + (if s.Nil? then [] else [Opcode(Pop)] + EmitList(s))
  }

  function Zeros(n: nat): seq<Machine.Byte> { seq(n, _ => 0) }

  /** The whole text segment after type check and compilation: code, then zeros. */
  function Program(t: Tree, textMax: nat): seq<Machine.Byte>
    requires |EmitList(Check(t, false))| <= textMax
  {
    var code := EmitList(Check(t, false));
    code + Zeros(textMax - |code|)
  }
}
