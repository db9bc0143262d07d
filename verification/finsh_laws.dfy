/** What a line of the shell means to its reader: which operator binds tighter, and what expressions compute,
    without the levels of the parser and without the functions of the machine. */
module FinshLaws {
  import opened Machine
  import opened FinshAlu
  import opened FinshVm
  import opened FinshTree
  import opened FinshCompiler
  import opened FinshCorrect
  import opened FinshErrors
  import opened FinshCalls
  import opened FinshGrammar
  import opened FinshLine
  import opened FinshNodes
  import opened FinshParser
  import opened FinshShell

  // ---- Precedence ----

  predicate Multiplies(op: AluOp) { op == Mul || op == Div || op == Mod }
  predicate Adds(op: AluOp) { op == Add || op == Sub }
  predicate Shifts(op: AluOp) { op == Shl || op == Shr }

  /** q binds tighter than p: products, sums, shifts, &, ^, |, in this order. */
  predicate Tighter(q: AluOp, p: AluOp) {
    || (Multiplies(q) && !Multiplies(p))
    || (Adds(q) && (Shifts(p) || p == And || p == Xor || p == Or))
    || (Shifts(q) && (p == And || p == Xor || p == Or))
    || (q == And && (p == Xor || p == Or))
    || (q == Xor && p == Or)
  }

  /** x p y q z. */
  function Two(p: AluOp, q: AluOp, x: Expr, y: Expr, z: Expr): Expr {
    if Tighter(q, p) then Binary(p, x, Binary(q, y, z)) else Binary(q, Binary(p, x, y), z)
  }

  /** Something that is an operand without parentheses: not a binary operation, not an assignment. */
  predicate IsOperandExpr(names: Names, e: Expr) { !e.Binary? && !e.Set? && Fits(UNARY, e) && Known(names, e) }

  predicate Ends(ts: seq<Token>) { ts == [] || ts[0] == Semicolon || ts[0] == RParen || ts[0] == Comma }

  function PrintTwo(names: Names, p: AluOp, q: AluOp, x: Expr, y: Expr, z: Expr): seq<Token> {
    Print(names, x) + [Operator(p)] + Print(names, y) + [Operator(q)] + Print(names, z)
  }

  lemma LevelsAgree(p: AluOp, q: AluOp)
    ensures Tighter(q, p) <==> Level(q) > Level(p)
    ensures Level(p) < UNARY
  {
  }

  lemma OperandFits(names: Names, l: nat, e: Expr)
    requires l <= UNARY && IsOperandExpr(names, e)
    ensures Fits(l, e)
  {
  }

  lemma BinaryFits(names: Names, p: AluOp, x: Expr, y: Expr)
    requires Fits(Level(p), x) && Fits(Level(p) + 1, y) && Known(names, x) && Known(names, y)
    ensures forall l: nat :: l <= Level(p) ==> Fits(l, Binary(p, x, y))
    ensures Known(names, Binary(p, x, y))
    ensures Print(names, Binary(p, x, y)) == Print(names, x) + [Operator(p)] + Print(names, y)
  {
  }

  lemma TwoFits(names: Names, p: AluOp, q: AluOp, x: Expr, y: Expr, z: Expr)
    requires IsOperandExpr(names, x) && IsOperandExpr(names, y) && IsOperandExpr(names, z)
    ensures var e := Two(p, q, x, y, z);
            FitsAssign(e) && Known(names, e) && Print(names, e) == PrintTwo(names, p, q, x, y, z)
  {
    hide Fits, Known, Print, Tighter, Level;
    LevelsAgree(p, q);
    LevelsAgree(q, p);
    forall l: nat | l <= UNARY ensures Fits(l, x) && Fits(l, y) && Fits(l, z) {
      OperandFits(names, l, x);
      OperandFits(names, l, y);
      OperandFits(names, l, z);
    }
    if Tighter(q, p) {
      BinaryFits(names, q, y, z);
      BinaryFits(names, p, x, Binary(q, y, z));
      Join(Print(names, x) + [Operator(p)], Print(names, y), [Operator(q)], Print(names, z));
    } else {
      BinaryFits(names, p, x, y);
      BinaryFits(names, q, Binary(p, x, y), z);
    }
  }

  lemma Join(a: seq<Token>, b: seq<Token>, c: seq<Token>, d: seq<Token>)
    ensures a + (b + c + d) == a + b + c + d
  {
  }

  /** Of two operators between three operands the tighter one goes first, and else the left one. */
  lemma TwoOperators(env: Symbols, names: Names, p: AluOp, q: AluOp, x: Expr, y: Expr, z: Expr, ts: seq<Token>)
    requires IsOperandExpr(names, x) && IsOperandExpr(names, y) && IsOperandExpr(names, z)
    requires Named(env, names) && Ends(ts)
    ensures ParseAssign(env, PrintTwo(names, p, q, x, y, z) + ts) == Some((Build(Two(p, q, x, y, z), Nil), ts))
  {
    TwoFits(names, p, q, x, y, z);
    AssignTrip(env, names, Two(p, q, x, y, z), ts);
  }

  /** finsh_parser_run on `x p y q z ;`, when the table has room. */
  method ReadTwo(parser: Parser, ghost c: nat, ghost tab: seq<Entry>, ghost names: Names, ghost p: AluOp,
                 ghost q: AluOp, ghost x: Expr, ghost y: Expr, ghost z: Expr)
    returns (root: int)
    requires IsOperandExpr(names, x) && IsOperandExpr(names, y) && IsOperandExpr(names, z) && Named(parser.env, names)
    requires parser.Ready() && parser.Same(c, tab) && parser.errno == OK
    requires parser.token.Rest() == PrintTwo(names, p, q, x, y, z) + [Semicolon]
    requires c + Count(Build(Two(p, q, x, y, z), Nil)) <= parser.table.Length
    modifies parser, parser.token, parser.table, parser.known
    ensures parser.errno == OK && Holds(parser.table[..], root, Build(Two(p, q, x, y, z), Nil))
  {
    hide Two, Holds, Build, Count, PrintTwo, IsOperandExpr, FitsAssign, Known;
    ghost var e := Two(p, q, x, y, z);
    TwoFits(names, p, q, x, y, z);
    LineTrip(parser.env, names, Last(e), false);
    root := parser.ParserRun(c, tab);
  }

  function PrintTo(names: Names, a: Ident): seq<Token> { [NameOf(names, a), AssignTok] }

  function PrintOne(names: Names, p: AluOp, x: Expr, y: Expr): seq<Token> {
    Print(names, x) + [Operator(p)] + Print(names, y)
  }

  lemma OneFits(names: Names, p: AluOp, x: Expr, y: Expr)
    requires IsOperandExpr(names, x) && IsOperandExpr(names, y)
    ensures var e := Binary(p, x, y); FitsAssign(e) && Known(names, e) && Print(names, e) == PrintOne(names, p, x, y)
  {
    LevelsAgree(p, p);
    OperandFits(names, Level(p), x);
    OperandFits(names, Level(p) + 1, y);
    BinaryFits(names, p, x, y);
  }

  lemma SetFits(names: Names, a: Ident, e: Expr)
    requires a in names && FitsAssign(e) && Known(names, e)
    ensures var s := Set(LVar(a), e);
            FitsAssign(s) && Known(names, s) && Print(names, s) == PrintTo(names, a) + Print(names, e)
  {
  }

  /** An assignment takes all that stands to its right, operators and further assignments: a = b = x p y. */
  lemma AssignmentsLast(env: Symbols, names: Names, a: Ident, b: Ident, p: AluOp, x: Expr, y: Expr, ts: seq<Token>)
    requires IsOperandExpr(names, x) && IsOperandExpr(names, y) && a in names && b in names
    requires Named(env, names) && Ends(ts)
    ensures ParseAssign(env, PrintTo(names, a) + (PrintTo(names, b) + PrintOne(names, p, x, y)) + ts) ==
            Some((Build(Set(LVar(a), Set(LVar(b), Binary(p, x, y))), Nil), ts))
  {
    hide FitsAssign, Known, Print, Build, PrintTo, PrintOne, ParseAssign;
    var e := Binary(p, x, y);
    OneFits(names, p, x, y);
    SetFits(names, b, e);
    SetFits(names, a, Set(LVar(b), e));
    AssignTrip(env, names, Set(LVar(a), Set(LVar(b), e)), ts);
  }

  /** A prefix operator takes its operand and nothing that follows it: ~x p y is the p of ~x and y. */
  lemma PrefixFirst(env: Symbols, names: Names, p: AluOp, x: Expr, y: Expr, ts: seq<Token>)
    requires IsOperandExpr(names, x) && IsOperandExpr(names, y) && Named(env, names) && Ends(ts)
    ensures ParseAssign(env, [Tilde] + Print(names, x) + [Operator(p)] + Print(names, y) + ts) ==
            Some((Build(Binary(p, Compl(x), y), Nil), ts))
    ensures ParseAssign(env, [Operator(Mul)] + Print(names, x) + [Operator(p)] + Print(names, y) + ts) ==
            Some((Build(Binary(p, Load(LDeref(x)), y), Nil), ts))
  {
    LevelsAgree(p, p);
    OperandFits(names, Level(p) + 1, y);
    BinaryFits(names, p, Compl(x), y);
    BinaryFits(names, p, Load(LDeref(x)), y);
    assert Print(names, Load(LDeref(x))) == [Operator(Mul)] + Print(names, x);
    AssignTrip(env, names, Binary(p, Compl(x), y), ts);
    AssignTrip(env, names, Binary(p, Load(LDeref(x)), y), ts);
  }

  /** x++ and x-- are the steps after, ++x and --x those before, &x is the address. */
  lemma StepsRead(env: Symbols, x: string, ts: seq<Token>)
    requires x in env && Ends(ts)
    ensures var v := LVar(env[x]);
            && ParseAssign(env, [Name(x), IncTok] + ts) == Some((Build(Post(true, v), Nil), ts))
            && ParseAssign(env, [Name(x), DecTok] + ts) == Some((Build(Post(false, v), Nil), ts))
            && ParseAssign(env, [IncTok, Name(x)] + ts) == Some((Build(Pre(true, v), Nil), ts))
            && ParseAssign(env, [DecTok, Name(x)] + ts) == Some((Build(Pre(false, v), Nil), ts))
            && ParseAssign(env, [Operator(And), Name(x)] + ts) == Some((Build(AddrOf(v), Nil), ts))
  {
    hide ParseAssign, Build;
    var (names, v) := (map[env[x] := x], LVar(env[x]));
    assert PrintLval(names, v) == [Name(x)];
    assert Print(names, Post(true, v)) == [Name(x), IncTok] && Print(names, Post(false, v)) == [Name(x), DecTok];
    assert Print(names, Pre(true, v)) == [IncTok, Name(x)] && Print(names, Pre(false, v)) == [DecTok, Name(x)];
    assert Print(names, AddrOf(v)) == [Operator(And)] + PrintLval(names, v) == [Operator(And), Name(x)];
    AssignTrip(env, names, Post(true, v), ts);
    AssignTrip(env, names, Post(false, v), ts);
    AssignTrip(env, names, Pre(true, v), ts);
    AssignTrip(env, names, Pre(false, v), ts);
    AssignTrip(env, names, AddrOf(v), ts);
  }

  lemma ArgFits(names: Names, e: Expr, rest: Args)
    requires FitsAssign(e) && Known(names, e) && FitsArgs(rest) && KnownArgs(names, rest)
    ensures var a := Arg(e, rest);
            FitsArgs(a) && KnownArgs(names, a) &&
            PrintArgs(names, a) == Print(names, e) + (if rest.NoArgs? then [] else [Comma] + PrintArgs(names, rest))
  {
  }

  lemma CallFits(names: Names, f: Ident, args: Args)
    requires f in names && FitsArgs(args) && KnownArgs(names, args)
    ensures var e := Call(f, args);
            FitsAssign(e) && Known(names, e) &&
            Print(names, e) == [Name(names[f]), LParen] + PrintArgs(names, args) + [RParen]
  {
  }

  /** f(x, y) calls f with x first and y second. */
  lemma CallReads(env: Symbols, names: Names, f: string, x: Expr, y: Expr, ts: seq<Token>)
    requires f in env && IsOperandExpr(names, x) && IsOperandExpr(names, y) && Ends(ts)
    requires Named(env, names) && env[f] in names && names[env[f]] == f
    ensures ParseAssign(env, [Name(f), LParen] + (Print(names, x) + ([Comma] + Print(names, y))) + [RParen] + ts) ==
            Some((Build(Call(env[f], Arg(x, Arg(y, NoArgs))), Nil), ts))
  {
    var last := Arg(y, NoArgs);
    OperandFits(names, 0, x);
    OperandFits(names, 0, y);
    ArgFits(names, y, NoArgs);
    ArgFits(names, x, last);
    assert PrintArgs(names, last) == Print(names, y) + [] == Print(names, y);
    hide ParseAssign, Build, Fits, Known, Print, PrintArgs, FitsAssign, FitsArgs, KnownArgs;
    var e := Call(env[f], Arg(x, last));
    CallFits(names, env[f], Arg(x, last));
    AssignTrip(env, names, e, ts);
  }

  /** A minus sign subtracts from zero, and a plus sign does nothing. */
  lemma SignsFirst(env: Symbols, names: Names, x: Expr, ts: seq<Token>)
    requires IsOperandExpr(names, x) && Named(env, names) && Ends(ts)
    ensures ParseAssign(env, [Operator(Sub)] + (Print(names, x) + ts)) ==
            Some((Build(Binary(Sub, Const(ValueLong, 0), x), Nil), ts))
    ensures ParseAssign(env, [Operator(Add)] + (Print(names, x) + ts)) == Some((Build(x, Nil), ts))
  {
    hide ParseAssign, Print, Fits, Known, Build;
    var rest := Print(names, x) + ts;
    MinusExpr(names, x);
    BuildSibling(x, Nil);
    Trip(env, names, UNARY, x, ts);
    SignSteps(env, rest, Build(x, Nil), ts);
    Descend(env, 0, [Operator(Sub)] + rest, Build(Binary(Sub, Const(ValueLong, 0), x), Nil), ts);
    Descend(env, 0, [Operator(Add)] + rest, Build(x, Nil), ts);
    Whole(env, [Operator(Sub)] + rest, Build(Binary(Sub, Const(ValueLong, 0), x), Nil), ts);
    Whole(env, [Operator(Add)] + rest, Build(x, Nil), ts);
  }

  lemma SignSteps(env: Symbols, rest: seq<Token>, t: Tree, ts: seq<Token>)
    requires Parse(env, UNARY, rest) == Some((t, ts)) && t.Node?
    ensures Parse(env, UNARY, [Operator(Sub)] + rest) ==
            Some((Sys(SysAlu(Sub), Atom(ValueLong, NoIdent, 0), t), ts))
    ensures Parse(env, UNARY, [Operator(Add)] + rest) == Some((t, ts))
  {
    assert ([Operator(Sub)] + rest)[1..] == rest && ([Operator(Add)] + rest)[1..] == rest;
  }

  lemma Whole(env: Symbols, all: seq<Token>, t: Tree, ts: seq<Token>)
    requires Parse(env, 0, all) == Some((t, ts)) && !Starts(ts, AssignTok)
    ensures ParseAssign(env, all) == Some((t, ts))
  {
  }

  // ---- What expressions compute ----

  /** Operands from left to right, and then the operator of C. */
  lemma BinaryLaw(op: AluOp, l: Expr, r: Expr, m: Memory, sys: System)
    requires Eval(Binary(op, l, r), m, sys).Some?
    ensures Eval(l, m, sys).Some? && Eval(r, Eval(l, m, sys).value.1, sys).Some?
    ensures var (x, m1) := Eval(l, m, sys).value;
            var (y, m2) := Eval(r, m1, sys).value;
            var (z, m') := Eval(Binary(op, l, r), m, sys).value;
            m' == m2 && Means(op, x, y, z)
  {
    hide AluDword, Means;
    var (x, m1) := Eval(l, m, sys).value;
    AluMeans(op, x, Eval(r, m1, sys).value.0);
  }

  lemma ComplementLaw(e: Expr, m: Memory, sys: System)
    requires Eval(Compl(e), m, sys).Some?
    ensures Eval(e, m, sys).Some?
    ensures var (x, m1) := Eval(e, m, sys).value;
            var (z, m') := Eval(Compl(e), m, sys).value; m' == m1 && Inverted(x, z)
  {
    ComplementMeans(Eval(e, m, sys).value.0);
  }

  /** Memory differs in the four bytes of a word only, which now loads as v. */
  ghost predicate Stored(m: Memory, m': Memory, a: Word, v: Word) {
    && LoadDword(m', a) == v
    && forall b: Word :: b != a && b != Next(a) && b != Next(Next(a)) && b != Next(Next(Next(a))) ==>
         Get(m', b) == Get(m, b)
  }

  /** First the place, then the value, which is stored there and is the value of the assignment. */
  lemma AssignmentLaw(lv: Lval, e: Expr, m: Memory, sys: System)
    requires Eval(Set(lv, e), m, sys).Some?
    ensures Addr(lv, m, sys).Some? && Eval(e, Addr(lv, m, sys).value.1, sys).Some?
    ensures var (a, m1) := Addr(lv, m, sys).value;
            var (v, m2) := Eval(e, m1, sys).value;
            var (z, m') := Eval(Set(lv, e), m, sys).value;
            z == v && Stored(m2, m', a, v)
  {
    hide LoadDword, StoreDword;
    var (a, m1) := Addr(lv, m, sys).value;
    var (v, m2) := Eval(e, m1, sys).value;
    LoadAfterStore(m2, a, v);
  }

  /** A step changes a variable by one; ++x is its new value, x++ the old one. */
  lemma StepLaw(up: bool, lv: Lval, m: Memory, sys: System)
    requires Addr(lv, m, sys).Some?
    ensures Eval(Pre(up, lv), m, sys).Some? && Eval(Post(up, lv), m, sys).Some?
    ensures var (a, m1) := Addr(lv, m, sys).value;
            var (v, m2) := Eval(Pre(up, lv), m, sys).value;
            var (w, m3) := Eval(Post(up, lv), m, sys).value;
            && w == LoadDword(m1, a) && Means(if up then Add else Sub, w, 1, v)
            && Stored(m1, m2, a, v) && Stored(m1, m3, a, v)
  {
    hide LoadDword, StoreDword, Means;
    var (a, m1) := Addr(lv, m, sys).value;
    var x := LoadDword(m1, a);
    BumpMeans(up, x);
    LoadAfterStore(m1, a, Bump(up, x));
  }

  lemma BumpMeans(up: bool, x: Word)
    ensures Means(if up then Add else Sub, x, 1, Bump(up, x))
  {
    SumMeans(x, 1);
  }

  /** *&x is x, and the word at an address is loaded from there. */
  lemma PointerLaw(lv: Lval, p: Expr, m: Memory, sys: System)
    ensures Eval(Load(LDeref(AddrOf(lv))), m, sys) == Eval(Load(lv), m, sys)
    ensures Eval(AddrOf(LDeref(p)), m, sys) == Eval(p, m, sys)
    ensures Eval(p, m, sys).Some? ==>
              var (a, m1) := Eval(p, m, sys).value; Eval(Load(LDeref(p)), m, sys) == Some((LoadDword(m1, a), m1))
  {
    hide LoadDword;
    assert Addr(LDeref(AddrOf(lv)), m, sys) == Eval(AddrOf(lv), m, sys) == Addr(lv, m, sys);
    assert Addr(LDeref(p), m, sys) == Eval(p, m, sys);
  }

  /** A call evaluates its arguments from left to right and passes their values in this order. */
  lemma CallLaw(f: Ident, a: Expr, b: Expr, m: Memory, sys: System)
    requires f.SysCall? && Eval(a, m, sys).Some? && Eval(b, Eval(a, m, sys).value.1, sys).Some?
    ensures var (x, m1) := Eval(a, m, sys).value;
            var (y, m2) := Eval(b, m1, sys).value;
            Eval(Call(f, Arg(a, Arg(b, NoArgs))), m, sys) == Some(sys(f.func, [x, y], m2))
  {
    hide Eval;
    var (x, m1) := Eval(a, m, sys).value;
    var (y, m2) := Eval(b, m1, sys).value;
    var last := Arg(b, NoArgs);
    ArgStep(b, NoArgs, m1, sys);
    ArgStep(a, last, m, sys);
    assert [x] + ([y] + []) == [x, y];
    CallStep(f, Arg(a, last), m, sys);
  }

  /** The value of a variable is the word at its place: for a finsh variable its slot, for a system variable its
      address. */
  lemma VariableLaw(ty: FinshType, slot: Word, addr: Word, m: Memory, sys: System)
    ensures Eval(Load(LVar(Var(ty, slot))), m, sys) == Some((LoadDword(m, slot), m))
    ensures Eval(Load(LVar(SysVar(ty, addr, slot))), m, sys) == Some((LoadDword(m, addr), m))
  {
  }

  lemma ArgStep(e: Expr, rest: Args, m: Memory, sys: System)
    requires Eval(e, m, sys).Some? && EvalArgs(rest, Eval(e, m, sys).value.1, sys).Some?
    ensures var (v, m1) := Eval(e, m, sys).value;
            var (vs, m2) := EvalArgs(rest, m1, sys).value;
            EvalArgs(Arg(e, rest), m, sys) == Some(([v] + vs, m2))
  {
    hide Eval;
  }

  lemma CallStep(f: Ident, args: Args, m: Memory, sys: System)
    requires f.SysCall? && EvalArgs(args, m, sys).Some?
    ensures var (vs, m1) := EvalArgs(args, m, sys).value;
            Eval(Call(f, args), m, sys) == Some(sys(f.func, vs, m1))
  {
    hide EvalArgs;
  }

  // ---- From the line to the number ----

  /** The number that two operators between three numbers make. */
  ghost predicate Number(p: AluOp, q: AluOp, a: Word, b: Word, c: Word, r: Word) {
    if Tighter(q, p) then exists u: Word :: Means(q, b, c, u) && Means(p, a, u, r)
    else exists u: Word :: Means(p, a, b, u) && Means(q, u, c, r)
  }

  lemma ConstLaw(v: Word, m: Memory, sys: System)
    ensures Eval(Const(ValueInt, v), m, sys) == Some((v, m))
  {
  }

  lemma NumberLaw(p: AluOp, q: AluOp, a: Word, b: Word, c: Word, m: Memory, sys: System)
    requires Eval(Two(p, q, Const(ValueInt, a), Const(ValueInt, b), Const(ValueInt, c)), m, sys).Some?
    ensures var (r, m') := Eval(Two(p, q, Const(ValueInt, a), Const(ValueInt, b), Const(ValueInt, c)), m, sys).value;
            m' == m && Number(p, q, a, b, c, r)
  {
    hide Eval, Means, Tighter;
    var (x, y, z) := (Const(ValueInt, a), Const(ValueInt, b), Const(ValueInt, c));
    ConstLaw(a, m, sys);
    ConstLaw(b, m, sys);
    ConstLaw(c, m, sys);
    if Tighter(q, p) {
      BinaryLaw(p, x, Binary(q, y, z), m, sys);
      BinaryLaw(q, y, z, m, sys);
      assert Means(q, b, c, Eval(Binary(q, y, z), m, sys).value.0);
    } else {
      BinaryLaw(q, Binary(p, x, y), z, m, sys);
      BinaryLaw(p, x, y, m, sys);
      assert Means(p, a, b, Eval(Binary(p, x, y), m, sys).value.0);
    }
  }

  function Numbers(p: AluOp, q: AluOp, a: Word, b: Word, c: Word): seq<Token> {
    [Value(ValueInt, a), Operator(p), Value(ValueInt, b), Operator(q), Value(ValueInt, c), Semicolon]
  }

  lemma NumbersRead(names: Names, p: AluOp, q: AluOp, a: Word, b: Word, c: Word)
    ensures var e := Last(Two(p, q, Const(ValueInt, a), Const(ValueInt, b), Const(ValueInt, c)));
            FitsAll(e) && KnownAll(names, e) && Numbers(p, q, a, b, c) == PrintAll(names, e)
  {
    var e := Two(p, q, Const(ValueInt, a), Const(ValueInt, b), Const(ValueInt, c));
    TwoFits(names, p, q, Const(ValueInt, a), Const(ValueInt, b), Const(ValueInt, c));
    assert PrintTwo(names, p, q, Const(ValueInt, a), Const(ValueInt, b), Const(ValueInt, c)) + [Semicolon] ==
           Numbers(p, q, a, b, c);
    hide Two, FitsAssign, Known, Print, PrintTwo, Numbers;
    assert PrintAll(names, Last(e)) == Print(names, e) + [Semicolon];
  }

  lemma ConstFits(v: Word)
    ensures var e := Const(ValueInt, v); Compilable(e) && IsDword(e) && Nodes(e) == 1 && |Code(e)| == 5
  {
    CountNode(Attr(ValueInt, Void, false, NoIdent, v), Nil, Nil);
  }

  lemma PairFits(op: AluOp, l: Expr, r: Expr)
    requires Compilable(l) && Compilable(r) && IsDword(l)
    ensures var e := Binary(op, l, r);
            Compilable(e) && IsDword(e) && Nodes(e) == 1 + Nodes(l) + Nodes(r) && |Code(e)| == |Code(l)| + |Code(r)| + 1
  {
    hide Code, Nodes;
    CodeOfBinary(op, l, r);
    BinaryNodes(op, l, r);
  }

  lemma NumbersFit(p: AluOp, q: AluOp, a: Word, b: Word, c: Word)
    ensures var e := Last(Two(p, q, Const(ValueInt, a), Const(ValueInt, b), Const(ValueInt, c)));
            CompilableAll(e) && Count(BuildAll(e)) == 5 && |CodeAll(e)| == 17
  {
    hide Tighter, Compilable, IsDword, Code;
    var (x, y, z) := (Const(ValueInt, a), Const(ValueInt, b), Const(ValueInt, c));
    ConstFits(a);
    ConstFits(b);
    ConstFits(c);
    if Tighter(q, p) {
      PairFits(q, y, z);
      PairFits(p, x, Binary(q, y, z));
    } else {
      PairFits(p, x, y);
      PairFits(q, Binary(p, x, y), z);
    }
  }

  /** finsh_run_line on `a p b q c ;`: parsed, compiled and run, it gives that number, wherever C defines it. */
  method RunNumbers(env: Symbols, table: array<Entry>, textMax: nat, stackMax: nat, mem: Memory, sys: System,
                    p: AluOp, q: AluOp, a: Word, b: Word, c: Word)
    returns (error: nat, r: Word, mem': Memory)
    requires Eval(Two(p, q, Const(ValueInt, a), Const(ValueInt, b), Const(ValueInt, c)), mem, sys).Some?
    requires table.Length >= 5 && textMax >= 17 && stackMax >= 7
    modifies table
    ensures error == OK && mem' == mem && Number(p, q, a, b, c, r)
  {
    hide Eval, Number, Two, CompilableAll, FitsAll, KnownAll, CodeAll, BuildAll, Count, PrintAll;
    ghost var e := Two(p, q, Const(ValueInt, a), Const(ValueInt, b), Const(ValueInt, c));
    ghost var names: Names := map[];
    NumbersRead(names, p, q, a, b, c);
    NumbersFit(p, q, a, b, c);
    NumberLaw(p, q, a, b, c, mem, sys);
    assert EvalAll(Last(e), mem, sys) == Eval(e, mem, sys);
    error, r, mem' := RunPrinted(env, Numbers(p, q, a, b, c), table, textMax, stackMax, mem, sys, names, Last(e));
  }
}
