/** finsh_compiler.c in place: the pass over the node table that records types and address flags,
    and the pass that writes bytes into the text segment. */
module FinshNodes {
  import opened Machine
  import opened FinshAlu
  import opened FinshVm
  import opened FinshTree
  import opened FinshCompiler
  import opened FinshCorrect
  import opened FinshErrors

  /** One entry of global_node_table; links are table indices, and NULL is -1. */
  datatype Entry = Entry(a: Attr, sibling: int, child: int)

  const NULL := -1

  /** The entries reached from p along child and sibling links that have the shape of t. */
  ghost function Foot(tab: seq<Entry>, p: int, t: Tree): set<int>
    decreases t
  {
    if t.Nil? || !(0 <= p < |tab|) then {}
    else {p} + Foot(tab, tab[p].child, t.child) + Foot(tab, tab[p].sibling, t.sibling)
  }

  /** From p the table holds exactly the tree t, no entry used twice. */
  ghost predicate Holds(tab: seq<Entry>, p: int, t: Tree)
    decreases t
  {
    match t
    case Nil => p == NULL
    case Node(a, c, s) =>
      && 0 <= p < |tab| && tab[p].a == a
      && Holds(tab, tab[p].child, c) && Holds(tab, tab[p].sibling, s)
      && p !in Foot(tab, tab[p].child, c) && p !in Foot(tab, tab[p].sibling, s)
      && Foot(tab, tab[p].child, c) !! Foot(tab, tab[p].sibling, s)
  }

  lemma {:induction false} Frame(tab: seq<Entry>, tab': seq<Entry>, p: int, t: Tree)
    requires Holds(tab, p, t) && |tab'| == |tab|
    requires forall i :: i in Foot(tab, p, t) && 0 <= i < |tab| ==> tab'[i] == tab[i]
    ensures Holds(tab', p, t) && Foot(tab', p, t) == Foot(tab, p, t)
    decreases t
  {
    if t.Node? {
      assert p in Foot(tab, p, t);
      Frame(tab, tab', tab[p].child, t.child);
      Frame(tab, tab', tab[p].sibling, t.sibling);
    }
  }

  /** The parts of a tree in the table, and how they make the whole. */
  ghost predicate InParts(tab: seq<Entry>, p: int, t: Tree)
    requires t.Node?
  {
    && 0 <= p < |tab| && tab[p].a == t.a
    && Holds(tab, tab[p].child, t.child) && Holds(tab, tab[p].sibling, t.sibling)
    && p !in Foot(tab, tab[p].child, t.child) && p !in Foot(tab, tab[p].sibling, t.sibling)
    && Foot(tab, tab[p].child, t.child) !! Foot(tab, tab[p].sibling, t.sibling)
  }

  lemma Split(tab: seq<Entry>, p: int, t: Tree)
    requires Holds(tab, p, t)
    ensures p == NULL <==> t.Nil?
    ensures t.Nil? ==> Foot(tab, p, t) == {}
    ensures t.Node? ==> InParts(tab, p, t)
    ensures t.Node? ==> Foot(tab, p, t) == {p} + Foot(tab, tab[p].child, t.child) + Foot(tab, tab[p].sibling, t.sibling)
  {
  }

  lemma Join(tab: seq<Entry>, p: int, t: Tree)
    requires t.Node? && InParts(tab, p, t)
    ensures Holds(tab, p, t)
    ensures Foot(tab, p, t) == {p} + Foot(tab, tab[p].child, t.child) + Foot(tab, tab[p].sibling, t.sibling)
  {
  }

  /** Relinking or relabelling one entry keeps the trees that do not contain it. */
  lemma FrameUpdate(tab: seq<Entry>, p: int, e: Entry, q: int, t: Tree)
    requires 0 <= p < |tab| && Holds(tab, q, t) && p !in Foot(tab, q, t)
    ensures Holds(tab[p := e], q, t) && Foot(tab[p := e], q, t) == Foot(tab, q, t)
  {
    Frame(tab, tab[p := e], q, t);
  }

  lemma EmptyTree(tab: seq<Entry>, p: int)
    ensures Holds(tab, p, Nil) <==> p == NULL
    ensures Foot(tab, p, Nil) == {}
  {
  }

  class Compiler {
    const table: array<Entry>
    const text: array<Machine.Byte>
    var pc: nat
    var errno: nat

    constructor (table: array<Entry>, textMax: nat)
      ensures this.table == table && fresh(text) && text.Length == textMax && pc == 0 && errno == OK
      ensures forall i :: 0 <= i < textMax ==> text[i] == 0
    {
      this.table := table;
      this.text := new Machine.Byte[textMax](_ => 0);
      this.pc, errno := 0, OK;
    }

    ghost predicate Separate() { (table as object) != (text as object) }

    /** finsh_type_check. */
    method TypeCheck(p: int, isAddr: bool, ghost t: Tree)
      requires Holds(table[..], p, t)
      modifies table, `errno
      ensures errno == if Untyped(t) then UNKNOWN_TYPE else old(errno)
      ensures Holds(table[..], p, Check(t, isAddr))
      ensures Foot(table[..], p, Check(t, isAddr)) == old(Foot(table[..], p, t))
      ensures forall i :: 0 <= i < table.Length && i !in old(Foot(table[..], p, t)) ==> table[i] == old(table[i])
      decreases t
    {
      hide Holds, Foot, TypeOf;
      Split(table[..], p, t);
      if p != NULL {
        var node := table[p];
        ghost var was := table[..];
        TypeCheck(node.child, ChildMode(node.a.kind, isAddr), t.child);
        ghost var c' := Check(t.child, ChildMode(node.a.kind, isAddr));
        Frame(was, table[..], node.sibling, t.sibling);
        ghost var mid := table[..];
        TypeCheck(node.sibling, false, t.sibling);
        ghost var s' := Check(t.sibling, false);
        Frame(mid, table[..], node.child, c');
        Split(table[..], node.child, c');
        var dtype := if node.child != NULL then table[node.child].a.dtype else LeafType(node.a);
        if node.child == NULL && node.a.kind == Id && (node.a.id.Var? || node.a.id.SysVar?) &&
           node.a.id.ty == TUnknown {
          errno := UNKNOWN_TYPE;
        }
        ghost var last := table[..];
        table[p] := Entry(node.a.(addr := if node.a.id.SysCall? && !node.a.addr then false else node.a.addr || isAddr,
                                  dtype := dtype), node.sibling, node.child);
        assert table[..] == last[p := table[p]];
        FrameUpdate(last, p, table[p], node.child, c');
        FrameUpdate(last, p, table[p], node.sibling, s');
        assert Check(t, isAddr) == Node(Annotate(t.a, isAddr, c'), c', s');
        Join(table[..], p, Node(Annotate(t.a, isAddr, c'), c', s'));
      }
    }

    /** The parameter count of a call: the number of siblings after an entry. */
    method CountSiblings(p: int, ghost t: Tree) returns (n: nat)
      requires Holds(table[..], p, t)
      ensures n == Siblings(t)
    {
      n := 0;
      var sibling := p;
      ghost var rest := t;
      while sibling != NULL
        invariant Holds(table[..], sibling, rest) && n + Siblings(rest) == Siblings(t)
        decreases rest
      {
        n := n + 1;
        sibling := table[sibling].sibling;
        rest := rest.sibling;
      }
    }

    /** finsh_code_byte and finsh_code_dword, repeatedly. */
    method Code(bytes: seq<Machine.Byte>)
      requires Separate() && pc + |bytes| <= text.Length
      modifies text, `pc
      ensures pc == old(pc) + |bytes|
      ensures text[..pc] == old(text[..pc]) + bytes
      ensures forall i :: pc <= i < text.Length ==> text[i] == old(text[i])
      ensures table[..] == old(table[..])
    {
      var i := 0;
      while i < |bytes|
        invariant 0 <= i <= |bytes| && pc == old(pc) + i
        invariant text[..pc] == old(text[..pc]) + bytes[..i]
        invariant forall i :: pc <= i < text.Length ==> text[i] == old(text[i])
        invariant table[..] == old(table[..])
      {
        text[pc] := bytes[i];
        pc := pc + 1;
        i := i + 1;
      }
    }

    /** The switch of finsh_compile: the code of the node itself, and the error it may set. */
    method OwnCode(p: int, ghost t: Tree)
      requires Separate() && t.Node? && InParts(table[..], p, t)
      requires pc + |EmitNode(t.a, FirstOf(t.child))| <= text.Length
      modifies text, `pc, `errno
      ensures pc == old(pc) + |EmitNode(t.a, FirstOf(t.child))|
      ensures text[..pc] == old(text[..pc]) + EmitNode(t.a, FirstOf(t.child))
      ensures forall i :: pc <= i < text.Length ==> text[i] == old(text[i])
      ensures table[..] == old(table[..]) && errno == Later(old(errno), NodeError(t.a, FirstOf(t.child)))
    {
      hide EmitNode, NodeError, Holds, Foot;
      var node, first := table[p], NoChild;
      Split(table[..], node.child, t.child);
      if node.child != NULL {
        var params := 0;
        if node.a.kind == Func {
          params := CountSiblings(table[node.child].sibling, t.child.sibling);
        }
        first := Child(table[node.child].a, params);
      }
      OnlyCallsCount(node.a, first, FirstOf(t.child));
      Code(EmitNode(node.a, first));
      if NodeError(node.a, first) != OK { errno := NodeError(node.a, first); }
    }

    /** finsh_compile: children first, then the node, then the siblings. */
    method Compile(p: int, ghost t: Tree)
      requires Separate() && Holds(table[..], p, t) && pc + |Emit(t)| <= text.Length
      modifies text, `pc, `errno
      ensures pc == old(pc) + |Emit(t)|
      ensures text[..pc] == old(text[..pc]) + Emit(t)
      ensures forall i :: pc <= i < text.Length ==> text[i] == old(text[i])
      ensures table[..] == old(table[..]) && errno == Later(old(errno), ErrorOf(t))
      decreases t
    {
      hide EmitNode, NodeError, Holds, Foot;
      Split(table[..], p, t);
      if p != NULL {
        var node := table[p];
        assert Emit(t) == Emit(t.child) + EmitNode(node.a, FirstOf(t.child)) + Emit(t.sibling);
        Compile(node.child, t.child);
        OwnCode(p, t);
        Compile(node.sibling, t.sibling);
      }
    }

    /** Clear the text segment and start at its beginning. */
    method Clear()
      requires Separate()
      modifies text, `pc
      ensures pc == 0 && (forall i :: 0 <= i < text.Length ==> text[i] == 0)
      ensures table[..] == old(table[..])
    {
      forall i | 0 <= i < text.Length { text[i] := 0; }
      pc := 0;
    }

    /** One statement: cut off its siblings, then compile it. */
    method Statement(current: int, ghost t: Tree) returns (sibling: int)
      requires Separate() && Holds(table[..], current, t) && t.Node?
      requires pc + |Emit(Node(t.a, t.child, Nil))| <= text.Length
      modifies table, text, `pc, `errno
      ensures errno == Later(old(errno), ErrorOf(Node(t.a, t.child, Nil)))
      ensures Holds(table[..], sibling, t.sibling) && (sibling == NULL <==> t.sibling.Nil?)
      ensures pc == old(pc) + |Emit(Node(t.a, t.child, Nil))|
      ensures text[..pc] == old(text[..pc]) + Emit(Node(t.a, t.child, Nil))
      ensures forall i :: pc <= i < text.Length ==> text[i] == old(text[i])
    {
      hide Emit, Holds, Foot;
      ghost var was := table[..];
      Split(was, current, t);
      sibling := table[current].sibling;
      table[current] := table[current].(sibling := NULL);
      assert table[..] == was[current := table[current]];
      FrameUpdate(was, current, table[current], table[current].child, t.child);
      FrameUpdate(was, current, table[current], sibling, t.sibling);
      EmptyTree(table[..], NULL);
      Join(table[..], current, Node(t.a, t.child, Nil));
      Split(table[..], sibling, t.sibling);
      Compile(current, Node(t.a, t.child, Nil));
    }

    /** finsh_compiler_run: check all statements, clear the text segment, compile statement by
        statement, each cut off from the next, with a pop in between. */
    method CompilerRun(root: int, ghost t: Tree)
      requires Separate() && Holds(table[..], root, t) && |EmitList(Check(t, false))| <= text.Length
      modifies table, text, `pc, `errno
      ensures text[..] == Program(t, text.Length) && pc == |EmitList(Check(t, false))|
      ensures errno == Later(if Untyped(t) then UNKNOWN_TYPE else old(errno), ErrorOf(Check(t, false)))
    {
      hide Emit, Check, Holds, Foot, EmitList, NodeError;
      TypeCheck(root, false, t);
      ghost var first := errno;
      Clear();
      var sibling := root;
      ghost var rest := Check(t, false);
      ghost var code := EmitList(rest);
      Split(table[..], root, rest);
      assert text[..0] == [];
      while sibling != NULL
        invariant Holds(table[..], sibling, rest) && (sibling == NULL <==> rest.Nil?)
        invariant pc <= text.Length && text[..pc] + EmitList(rest) == code
        invariant forall i :: pc <= i < text.Length ==> text[i] == 0
        invariant Later(errno, ErrorOf(rest)) == Later(first, ErrorOf(Check(t, false)))
        decreases rest
      {
        ListStep(text[..pc], rest, code, text.Length);
        sibling := Statement(sibling, rest);
        if sibling != NULL { Code([Opcode(Pop)]); }
        rest := rest.sibling;
      }
      ListEnd(text[..pc], code);
      assert text[..] == code + Zeros(text.Length - |code|);
    }
  }

  /** The code of the first statement, the pop behind it if there is another, and the code of the others. */
  lemma ListStep(before: seq<Machine.Byte>, rest: Tree, code: seq<Machine.Byte>, room: nat)
    requires rest.Node? && before + EmitList(rest) == code && |code| <= room
    ensures var own := Emit(Node(rest.a, rest.child, Nil));
            |before| + |own| <= room &&
            if rest.sibling.Nil? then (before + own) + EmitList(rest.sibling) == code
            else |before| + |own| + 1 <= room && ((before + own) + [Opcode(Pop)]) + EmitList(rest.sibling) == code
  {
    hide Emit;
    var own := Emit(Node(rest.a, rest.child, Nil));
    var tail := if rest.sibling.Nil? then [] else [Opcode(Pop)] + EmitList(rest.sibling);
    assert EmitList(rest) == own + tail;
    assert before + (own + tail) == (before + own) + tail;
  }

  lemma ListEnd(before: seq<Machine.Byte>, code: seq<Machine.Byte>)
    ensures before + EmitList(Nil) == code ==> before == code
  {
  }

  lemma OnlyCallsCount(a: Attr, c: First, d: First)
    requires c == d || (c.Child? && d.Child? && c.a == d.a && a.kind != Func)
    ensures EmitNode(a, c) == EmitNode(a, d) && NodeError(a, c) == NodeError(a, d)
  {
  }

  /** finsh_run_line of shell.c after parsing: compile, and if there was no error, run and read the bottom of
      the stack.  A line with an assignment that the compiler refuses is not run.  For any other line that it
      translates, this is the value of the last statement. */
  method RunLine(c: Compiler, root: int, ghost p: Stmts, mem: Memory, sys: System, stackMax: nat)
    returns (error: nat, bottom: Word, mem': Memory)
    requires c.Separate() && Holds(c.table[..], root, BuildAll(p)) && c.errno == OK
    requires ShapedAll(p) && |CodeAll(p)| <= c.text.Length
    requires !RefusedAll(p) ==>
               CompilableAll(p) && EvalAll(p, mem, sys).Some? && Count(BuildAll(p)) + 2 <= stackMax
    modifies c, c.table, c.text
    ensures RefusedAll(p) ==> error == UNKNOWN_TYPE && mem' == mem
    ensures !RefusedAll(p) ==> error == OK && (bottom, mem') == EvalAll(p, mem, sys).value
  {
    hide Exec, EvalAll, Program, BuildAll, CompilableAll, ShapedAll, RefusedAll, CodeAll, Check, ErrorOf;
    EmitsAll(p);
    LineErrors(p);
    c.CompilerRun(root, BuildAll(p));
    error, bottom, mem' := c.errno, 0, mem;
    if error == OK {
      CompilerCorrect(p, mem, sys, c.text.Length, stackMax);
      var vm := new Vm(c.text, stackMax, mem);
      vm.Run(sys);
      assert vm.slots[..vm.sp][0] == EvalAll(p, mem, sys).value.0;
      bottom, mem' := vm.slots[0], vm.mem;
    }
  }
}
