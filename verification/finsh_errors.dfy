/** When the type check and the compiler refuse a line. */
module FinshErrors {
  import opened Machine
  import opened FinshAlu
  import opened FinshVm
  import opened FinshTree
  import opened FinshCompiler
  import opened FinshCorrect

  /** An assignment through a pointer whose expression goes first to a call, as in *f() = x. */
  predicate Refused(e: Expr) {
    match e
    case Const(_, _) => false
    case Load(lv) => RefusedLval(lv)
    case AddrOf(lv) => RefusedLval(lv)
    case Binary(_, l, r) => Refused(l) || Refused(r)
    case Compl(x) => Refused(x)
    case Set(lv, x) => !IsDwordLval(lv) || RefusedLval(lv) || Refused(x)
    case Pre(_, lv) => RefusedLval(lv)
    case Post(_, lv) => RefusedLval(lv)
    case Call(_, args) => RefusedArgs(args)
  }

  predicate RefusedLval(lv: Lval) { lv.LDeref? && Refused(lv.p) }

  predicate RefusedArgs(a: Args) {
    match a case NoArgs => false case Arg(e, rest) => Refused(e) || RefusedArgs(rest)
  }

  predicate RefusedAll(p: Stmts) { Refused(p.e) || (p.Then? && RefusedAll(p.rest)) }

  function If(refused: bool): nat { if refused then UNKNOWN_TYPE else OK }

  lemma NodeErrors(k: NodeType, c: Tree, next: Tree, mode: bool)
    ensures var c' := Check(c, ChildMode(k, mode));
            var t := Check(Plain(k, c, next), mode);
            ErrorOf(t) == Later(Later(ErrorOf(c'), NodeError(t.a, FirstOf(c'))), ErrorOf(Check(next, false))) &&
            t.a.kind == k
    ensures k != Id ==> (Untyped(Plain(k, c, next)) <==> Untyped(c) || Untyped(next))
  {
  }

  /** Exactly such an assignment is refused, anywhere in an expression; and the type check refuses none. */
  lemma {:induction false} Errors(e: Expr, next: Tree)
    requires Shaped(e)
    ensures ErrorOf(Check(Build(e, next), false)) == Later(If(Refused(e)), ErrorOf(Check(next, false)))
    ensures Untyped(Build(e, next)) <==> Untyped(next)
    decreases e
  {
    hide Check, ErrorOf, Emit;
    match e
    case Const(k, v) => ConstErrors(k, v, next);
    case Load(lv) => LvalErrors(lv, next, false);
    case AddrOf(lv) =>
      LvalErrors(lv, Nil, true);
      NilErrors();
      NodeErrors(GetAddr, BuildLval(lv, Nil), next, false);
    case Binary(op, l, r) =>
      Errors(r, Nil);
      Errors(l, Build(r, Nil));
      NilErrors();
      NodeErrors(SysAlu(op), Build(l, Build(r, Nil)), next, false);
    case Compl(x) =>
      Errors(x, Nil);
      NilErrors();
      NodeErrors(Bitwise, Build(x, Nil), next, false);
    case Set(lv, x) => SetErrors(lv, x, next);
    case Pre(up, lv) =>
      LvalErrors(lv, Nil, true);
      NilErrors();
      NodeErrors(if up then PreInc else PreDec, BuildLval(lv, Nil), next, false);
    case Post(up, lv) =>
      LvalErrors(lv, Nil, false);
      NilErrors();
      NodeErrors(if up then Inc else Dec, BuildLval(lv, Nil), next, false);
    case Call(f, args) =>
      ArgsErrors(args);
      NilErrors();
      NameErrors(f, BuildArgs(args));
      NodeErrors(Func, Node(Attr(Id, Void, false, f, 0), Nil, BuildArgs(args)), next, false);
  }

  lemma NilErrors()
    ensures ErrorOf(Check(Nil, false)) == OK && !Untyped(Nil)
  {
  }

  lemma ConstErrors(k: NodeType, v: Word, next: Tree)
    requires Shaped(Const(k, v))
    ensures ErrorOf(Check(Build(Const(k, v), next), false)) == ErrorOf(Check(next, false))
    ensures Untyped(Build(Const(k, v), next)) <==> Untyped(next)
  {
  }

  lemma NameErrors(id: Ident, next: Tree)
    requires id.SysCall? || ((id.Var? || id.SysVar?) && DwordVar(id.ty))
    ensures forall mode ::
              ErrorOf(Check(Node(Attr(Id, Void, false, id, 0), Nil, next), mode)) == ErrorOf(Check(next, false))
    ensures Untyped(Node(Attr(Id, Void, false, id, 0), Nil, next)) <==> Untyped(next)
  {
  }

  lemma {:induction false} LvalErrors(lv: Lval, next: Tree, mode: bool)
    requires ShapedLval(lv)
    ensures ErrorOf(Check(BuildLval(lv, next), mode)) == Later(If(RefusedLval(lv)), ErrorOf(Check(next, false)))
    ensures Untyped(BuildLval(lv, next)) <==> Untyped(next)
    decreases lv
  {
    hide Check, ErrorOf;
    match lv
    case LVar(id) => NameErrors(id, next);
    case LDeref(p) =>
      Errors(p, Nil);
      NilErrors();
      NodeErrors(GetValue, Build(p, Nil), next, mode);
  }

  lemma {:induction false} SetErrors(lv: Lval, x: Expr, next: Tree)
    requires Shaped(Set(lv, x))
    ensures ErrorOf(Check(Build(Set(lv, x), next), false)) ==
            Later(If(Refused(Set(lv, x))), ErrorOf(Check(next, false)))
    ensures Untyped(Build(Set(lv, x), next)) <==> Untyped(next)
    decreases Set(lv, x), 0
  {
    hide Check, ErrorOf, Emit;
    var c2 := Build(x, Nil);
    var c := BuildLval(lv, c2);
    Errors(x, Nil);
    LvalErrors(lv, c2, true);
    NilErrors();
    EmitsAddr(lv, c2);
    NodeErrors(Assign, c, next, false);
  }

  lemma {:induction false} ArgsErrors(a: Args)
    requires ShapedArgs(a)
    ensures ErrorOf(Check(BuildArgs(a), false)) == If(RefusedArgs(a)) && !Untyped(BuildArgs(a))
    decreases a
  {
    match a
    case NoArgs =>
    case Arg(e, rest) =>
      ArgsErrors(rest);
      Errors(e, BuildArgs(rest));
  }

  /** A line is refused, with UNKNOWN_TYPE, if and only if one of its statements has such an assignment. */
  lemma {:induction false} LineErrors(p: Stmts)
    requires ShapedAll(p)
    ensures ErrorOf(Check(BuildAll(p), false)) == If(RefusedAll(p)) && !Untyped(BuildAll(p))
    decreases p
  {
    hide Check, ErrorOf;
    if p.Then? {
      LineErrors(p.rest);
      Errors(p.e, BuildAll(p.rest));
    } else {
      Errors(p.e, Nil);
      NilErrors();
    }
  }

  // ---- What the type check refuses ----

  /** A variable of unknown type, anywhere in an expression. */
  predicate UsesUnknown(e: Expr) {
    match e
    case Const(_, _) => false
    case Load(lv) => UnknownLval(lv)
    case AddrOf(lv) => UnknownLval(lv)
    case Binary(_, l, r) => UsesUnknown(l) || UsesUnknown(r)
    case Compl(x) => UsesUnknown(x)
    case Set(lv, x) => UnknownLval(lv) || UsesUnknown(x)
    case Pre(_, lv) => UnknownLval(lv)
    case Post(_, lv) => UnknownLval(lv)
    case Call(f, args) => UnknownName(f) || UnknownArgs(args)
  }

  predicate UnknownName(id: Ident) { (id.Var? || id.SysVar?) && id.ty == TUnknown }

  predicate UnknownLval(lv: Lval) { match lv case LVar(id) => UnknownName(id) case LDeref(p) => UsesUnknown(p) }

  predicate UnknownArgs(a: Args) {
    match a case NoArgs => false case Arg(e, rest) => UsesUnknown(e) || UnknownArgs(rest)
  }

  predicate Constants(e: Expr) {
    match e
    case Const(k, _) => k != Id
    case Load(lv) => ConstantsLval(lv)
    case AddrOf(lv) => ConstantsLval(lv)
    case Binary(_, l, r) => Constants(l) && Constants(r)
    case Compl(x) => Constants(x)
    case Set(lv, x) => ConstantsLval(lv) && Constants(x)
    case Pre(_, lv) => ConstantsLval(lv)
    case Post(_, lv) => ConstantsLval(lv)
    case Call(_, args) => ConstantsArgs(args)
  }

  predicate ConstantsLval(lv: Lval) { lv.LDeref? ==> Constants(lv.p) }

  predicate ConstantsArgs(a: Args) {
    match a case NoArgs => true case Arg(e, rest) => Constants(e) && ConstantsArgs(rest)
  }

  lemma PlainUntyped(k: NodeType, c: Tree, next: Tree)
    requires k != Id
    ensures Untyped(Plain(k, c, next)) <==> Untyped(c) || Untyped(next)
  {
  }

  lemma LeafUntyped(k: NodeType, id: Ident, v: Word, next: Tree)
    ensures Untyped(Node(Attr(k, Void, false, id, v), Nil, next)) <==> Untyped(next) || (k == Id && UnknownName(id))
  {
  }

  /** The type check sets its error if and only if the line has a variable of unknown type. */
  lemma {:induction false} UnknownRefused(e: Expr, next: Tree)
    requires Constants(e)
    ensures Untyped(Build(e, next)) <==> UsesUnknown(e) || Untyped(next)
    decreases e
  {
    hide Untyped;
    LeafUntyped(Id, NoIdent, 0, Nil);
    assert !Untyped(Nil) by { NilErrors(); }
    match e
    case Const(k, v) => LeafUntyped(k, NoIdent, v, next);
    case Load(lv) => UnknownLvalRefused(lv, next);
    case AddrOf(lv) =>
      UnknownLvalRefused(lv, Nil);
      PlainUntyped(GetAddr, BuildLval(lv, Nil), next);
    case Binary(op, l, r) =>
      UnknownRefused(r, Nil);
      UnknownRefused(l, Build(r, Nil));
      PlainUntyped(SysAlu(op), Build(l, Build(r, Nil)), next);
    case Compl(x) =>
      UnknownRefused(x, Nil);
      PlainUntyped(Bitwise, Build(x, Nil), next);
    case Set(lv, x) =>
      UnknownRefused(x, Nil);
      UnknownLvalRefused(lv, Build(x, Nil));
      PlainUntyped(Assign, BuildLval(lv, Build(x, Nil)), next);
    case Pre(up, lv) =>
      UnknownLvalRefused(lv, Nil);
      PlainUntyped(if up then PreInc else PreDec, BuildLval(lv, Nil), next);
    case Post(up, lv) =>
      UnknownLvalRefused(lv, Nil);
      PlainUntyped(if up then Inc else Dec, BuildLval(lv, Nil), next);
    case Call(f, args) =>
      UnknownArgsRefused(args);
      LeafUntyped(Id, f, 0, BuildArgs(args));
      PlainUntyped(Func, Node(Attr(Id, Void, false, f, 0), Nil, BuildArgs(args)), next);
  }

  lemma {:induction false} UnknownLvalRefused(lv: Lval, next: Tree)
    requires ConstantsLval(lv)
    ensures Untyped(BuildLval(lv, next)) <==> UnknownLval(lv) || Untyped(next)
    decreases lv
  {
    hide Untyped;
    match lv
    case LVar(id) => LeafUntyped(Id, id, 0, next);
    case LDeref(p) =>
      assert !Untyped(Nil) by { NilErrors(); }
      UnknownRefused(p, Nil);
      PlainUntyped(GetValue, Build(p, Nil), next);
  }

  lemma {:induction false} UnknownArgsRefused(a: Args)
    requires ConstantsArgs(a)
    ensures Untyped(BuildArgs(a)) <==> UnknownArgs(a)
    decreases a
  {
    match a
    case NoArgs =>
    case Arg(e, rest) =>
      UnknownArgsRefused(rest);
      UnknownRefused(e, BuildArgs(rest));
  }

  // ---- What the compiler translates is not refused ----

  lemma {:induction false} CompilableAccepted(e: Expr)
    requires Compilable(e)
    ensures !Refused(e)
    decreases e
  {
    match e
    case Const(_, _) =>
    case Load(lv) => LvalAccepted(lv);
    case AddrOf(lv) => LvalAccepted(lv);
    case Binary(_, l, r) => CompilableAccepted(l); CompilableAccepted(r);
    case Compl(x) => CompilableAccepted(x);
    case Set(lv, x) => LvalAccepted(lv); CompilableAccepted(x);
    case Pre(_, lv) =>
    case Post(_, lv) =>
    case Call(_, args) => ArgsAccepted(args);
  }

  lemma {:induction false} LvalAccepted(lv: Lval)
    requires CompilableLval(lv)
    ensures !RefusedLval(lv)
    decreases lv
  {
    if lv.LDeref? { CompilableAccepted(lv.p); }
  }

  lemma {:induction false} ArgsAccepted(a: Args)
    requires CompilableArgs(a)
    ensures !RefusedArgs(a)
    decreases a
  {
    if a.Arg? {
      CompilableAccepted(a.e);
      ArgsAccepted(a.rest);
    }
  }

  lemma {:induction false} LineAccepted(p: Stmts)
    requires CompilableAll(p)
    ensures !RefusedAll(p)
    decreases p
  {
    CompilableAccepted(p.e);
    if p.Then? { LineAccepted(p.rest); }
  }
}
