/** The expression grammar of finsh_parser.c, as functions from token sequences to trees. */
module FinshGrammar {
  import opened Machine
  import opened FinshAlu
  import opened FinshVm
  import opened FinshTree
  import opened FinshCompiler
  import opened FinshCorrect

  /** What the scanner delivers.  The operators & * + - are also prefix operators. */
  datatype Token =
    | Name(s: string) | Value(kind: NodeType, v: Word) | Operator(op: AluOp)
    | AssignTok | IncTok | DecTok | Tilde | LParen | RParen | Comma | Semicolon | BadTok | Eof

  /** The symbols that finsh_node_new_id finds. */
  type Symbols = map<string, Ident>

  type Parsed = Option<(Tree, seq<Token>)>

  /** The level of a binary operator: the looser it binds, the smaller. */
  function Level(op: AluOp): nat {
    match op
    case Or => 0 case Xor => 1 case And => 2
    case Shl => 3 case Shr => 3 case Add => 4 case Sub => 4
    case _ => 5
  }

  const UNARY := 6      // proc_cast_expr and proc_unary_expr
  const POSTFIX := 7

  predicate Starts(ts: seq<Token>, t: Token) { ts != [] && ts[0] == t }

  predicate OpAt(l: nat, ts: seq<Token>) { ts != [] && ts[0].Operator? && Level(ts[0].op) == l }

  /** make_sys_node. */
  function Sys(k: NodeType, x: Tree, y: Tree): Tree
    requires x.Node?
  {
    Plain(k, x.(sibling := y), Nil)
  }

  function Atom(k: NodeType, id: Ident, v: Word): Tree { Node(Attr(k, Void, false, id, v), Nil, Nil) }

  /** The prefix operators: the node they make, if any. */
  function Prefix(t: Token): Option<NodeType> {
    match t
    case IncTok => Some(PreInc) case DecTok => Some(PreDec) case Tilde => Some(Bitwise)
    case Operator(Mul) => Some(GetValue) case Operator(And) => Some(GetAddr)
    case _ => None
  }

  predicate Good(r: Parsed, ts: seq<Token>) {
    r.Some? ==> r.value.0.Node? && r.value.0.sibling.Nil? && |r.value.1| < |ts|
  }

  /** proc_primary_expr. */
  function Primary(env: Symbols, ts: seq<Token>): (r: Parsed)
    ensures Good(r, ts)
    decreases |ts|, 2
  {
    if ts == [] then None
    else match ts[0]
      case Name(s) => if s in env then Some((Atom(Id, env[s], 0), ts[1..])) else None
      case Value(k, v) => Some((Atom(k, NoIdent, v), ts[1..]))
      case LParen =>
        (match ParseAssign(env, ts[1..]) case None => None
         case Some((t, rest)) => if Starts(rest, RParen) then Some((t, rest[1..])) else None)
      case _ => None
  }

  /** proc_inclusive_or_expr (level 0) down to proc_postfix_expr (level 7).  An opening parenthesis before
      an operand starts a cast, and there is none without a type. */
  function Parse(env: Symbols, l: nat, ts: seq<Token>): (r: Parsed)
    requires l <= POSTFIX
    ensures Good(r, ts)
    decreases |ts|, 10 - l
  {
    if l < UNARY then
      match Parse(env, l + 1, ts) case None => None case Some((t, rest)) => Loop(env, l, t, rest)
    else if l == UNARY then
      if ts == [] || ts[0] == LParen then None
      else if Prefix(ts[0]).Some? then
        match Parse(env, UNARY, ts[1..])
        case None => None
        case Some((t, rest)) => Some((Sys(Prefix(ts[0]).value, t, Nil), rest))
      else if ts[0] == Operator(Add) then Parse(env, UNARY, ts[1..])
      else if ts[0] == Operator(Sub) then
        match Parse(env, UNARY, ts[1..])
        case None => None
        case Some((t, rest)) => Some((Sys(SysAlu(Sub), Atom(ValueLong, NoIdent, 0), t), rest))
      else Parse(env, POSTFIX, ts)
    else
      match Primary(env, ts) case None => None case Some((t, rest)) => PostLoop(env, t, rest)
  }

  /** The loop over the operators of one level. */
  function Loop(env: Symbols, l: nat, t: Tree, ts: seq<Token>): (r: Parsed)
    requires l < UNARY && t.Node? && t.sibling.Nil?
    ensures r.Some? ==> r.value.0.Node? && r.value.0.sibling.Nil? && |r.value.1| <= |ts|
    decreases |ts|, 0
  {
    if OpAt(l, ts) then
      match Parse(env, l + 1, ts[1..]) case None => None
      case Some((u, rest)) => Loop(env, l, Sys(SysAlu(ts[0].op), t, u), rest)
    else Some((t, ts))
  }

  /** The loop over postfix operators and calls. */
  function PostLoop(env: Symbols, t: Tree, ts: seq<Token>): (r: Parsed)
    requires t.Node? && t.sibling.Nil?
    ensures r.Some? ==> r.value.0.Node? && r.value.0.sibling.Nil? && |r.value.1| <= |ts|
    decreases |ts|, 0
  {
    if Starts(ts, IncTok) then PostLoop(env, Sys(Inc, t, Nil), ts[1..])
    else if Starts(ts, DecTok) then PostLoop(env, Sys(Dec, t, Nil), ts[1..])
    else if Starts(ts, LParen) then
      if Starts(ts[1..], RParen) then PostLoop(env, Sys(Func, t, Nil), ts[2..])
      else match ParseArgs(env, ts[1..])
        case None => None
        case Some((a, rest)) => if Starts(rest, RParen) then PostLoop(env, Sys(Func, t, a), rest[1..]) else None
    else Some((t, ts))
  }

  /** proc_assign_expr. */
  function ParseAssign(env: Symbols, ts: seq<Token>): (r: Parsed)
    ensures Good(r, ts)
    decreases |ts|, 11
  {
    match Parse(env, 0, ts) case None => None
    case Some((t, rest)) =>
      if Starts(rest, AssignTok) then
        match ParseAssign(env, rest[1..]) case None => None
        case Some((u, rest2)) => Some((Sys(Assign, t, u), rest2))
      else Some((t, rest))
  }

  /** proc_param_list: the parameters as siblings. */
  function ParseArgs(env: Symbols, ts: seq<Token>): (r: Parsed)
    ensures r.Some? ==> r.value.0.Node? && |r.value.1| < |ts|
    decreases |ts|, 12
  {
    match ParseAssign(env, ts) case None => None
    case Some((t, rest)) =>
      if Starts(rest, Comma) then
        match ParseArgs(env, rest[1..]) case None => None
        case Some((more, rest2)) => Some((t.(sibling := more), rest2))
      else Some((t, rest))
  }

  /** finsh_parser_run on expression statements: the chain of their trees.  An empty statement ends the
      line if it is the first; later it drops the token after it. */
  function ParseLine(env: Symbols, ts: seq<Token>, root: bool): Option<Tree>
    decreases |ts|
  {
    if ts == [] || ts[0] == BadTok then Some(Nil)
    else if ts[0] == Semicolon then
      if root then ParseLine(env, if |ts| > 1 then ts[2..] else [], true) else Some(Nil)
    else
      match ParseAssign(env, ts) case None => None
      case Some((t, rest)) =>
        if !Starts(rest, Semicolon) then None
        else match ParseLine(env, rest[1..], true) case None => None case Some(more) => Some(t.(sibling := more))
  }

  // ---- Writing expressions without parentheses ----

  /** An expression can stand where the grammar asks for level l: left operands of an operator at its
      own level, right operands above it. */
  predicate Fits(l: nat, e: Expr)
    decreases e, 0
  {
    match e
    case Const(_, _) => true
    case Load(LVar(_)) => true
    case Load(LDeref(p)) => l <= UNARY && Fits(UNARY, p)
    case AddrOf(lv) => l <= UNARY && FitsLval(lv)
    case Compl(x) => l <= UNARY && Fits(UNARY, x)
    case Pre(_, lv) => l <= UNARY && FitsLval(lv)
    case Post(_, lv) => lv.LVar?
    case Call(_, args) => FitsArgs(args)
    case Binary(op, x, y) => l <= Level(op) && Fits(Level(op), x) && Fits(Level(op) + 1, y)
    case Set(_, _) => false
  }

  predicate FitsLval(lv: Lval)
    decreases lv
  {
    match lv case LVar(_) => true case LDeref(p) => Fits(UNARY, p)
  }

  /** Assignments associate to the right. */
  predicate FitsAssign(e: Expr)
    decreases e, 1
  {
    match e case Set(lv, x) => FitsLval(lv) && FitsAssign(x) case _ => Fits(0, e)
  }

  predicate FitsArgs(a: Args)
    decreases a
  {
    match a case NoArgs => true case Arg(e, rest) => FitsAssign(e) && FitsArgs(rest)
  }

  /** The names of the identifiers. */
  type Names = map<Ident, string>

  function NameOf(names: Names, id: Ident): Token { if id in names then Name(names[id]) else BadTok }

  function Print(names: Names, e: Expr): seq<Token>
    decreases e
  {
    match e
    case Const(k, v) => [Value(k, v)]
    case Load(lv) => PrintLval(names, lv)
    case AddrOf(lv) => [Operator(And)] + PrintLval(names, lv)
    case Compl(x) => [Tilde] + Print(names, x)
    case Pre(up, lv) => [if up then IncTok else DecTok] + PrintLval(names, lv)
    case Post(up, lv) => PrintLval(names, lv) + [if up then IncTok else DecTok]
    case Call(f, args) => [NameOf(names, f), LParen] + PrintArgs(names, args) + [RParen]
    case Binary(op, x, y) => Print(names, x) + [Operator(op)] + Print(names, y)
    case Set(lv, x) => PrintLval(names, lv) + [AssignTok] + Print(names, x)
  }

  function PrintLval(names: Names, lv: Lval): seq<Token>
    decreases lv
  {
    match lv case LVar(id) => [NameOf(names, id)] case LDeref(p) => [Operator(Mul)] + Print(names, p)
  }

  function PrintArgs(names: Names, a: Args): seq<Token>
    decreases a
  {
    match a
    case NoArgs => []
    case Arg(e, rest) => Print(names, e) + (if rest.NoArgs? then [] else [Comma] + PrintArgs(names, rest))
  }

  function PrintAll(names: Names, p: Stmts): seq<Token> {
    match p
    case Last(e) => Print(names, e) + [Semicolon]
    case Then(e, rest) => Print(names, e) + [Semicolon] + PrintAll(names, rest)
  }

  predicate FitsAll(p: Stmts) {
    match p case Last(e) => FitsAssign(e) case Then(e, rest) => FitsAssign(e) && FitsAll(rest)
  }

  /** Every identifier of the symbol table can be written. */
  ghost predicate Named(env: Symbols, names: Names) {
    forall id :: id in names ==> names[id] in env && env[names[id]] == id
  }

  /** The identifiers of an expression have names. */
  predicate Known(names: Names, e: Expr)
    decreases e
  {
    match e
    case Const(_, _) => true
    case Load(lv) => KnownLval(names, lv)
    case AddrOf(lv) => KnownLval(names, lv)
    case Compl(x) => Known(names, x)
    case Pre(_, lv) => KnownLval(names, lv)
    case Post(_, lv) => KnownLval(names, lv)
    case Call(f, args) => f in names && KnownArgs(names, args)
    case Binary(_, x, y) => Known(names, x) && Known(names, y)
    case Set(lv, x) => KnownLval(names, lv) && Known(names, x)
  }

  predicate KnownLval(names: Names, lv: Lval)
    decreases lv
  {
    match lv case LVar(id) => id in names case LDeref(p) => Known(names, p)
  }

  predicate KnownArgs(names: Names, a: Args)
    decreases a
  {
    match a case NoArgs => true case Arg(e, rest) => Known(names, e) && KnownArgs(names, rest)
  }

  predicate KnownAll(names: Names, p: Stmts) {
    match p case Last(e) => Known(names, e) case Then(e, rest) => Known(names, e) && KnownAll(names, rest)
  }

  // ---- The parser inverts the printer ----

  /** What may follow an expression of level l. */
  predicate Stops(l: nat, ts: seq<Token>) {
    ts == [] || (ts[0] != IncTok && ts[0] != DecTok && ts[0] != LParen && !(ts[0].Operator? && Level(ts[0].op) >= l))
  }

  lemma BuildSibling(e: Expr, next: Tree)
    ensures Build(e, Nil).Node? && Build(e, Nil).sibling.Nil? && Build(e, next) == Build(e, Nil).(sibling := next)
  {
    match e
    case Load(lv) => LvalSibling(lv, next);
    case _ =>
  }

  lemma LvalSibling(lv: Lval, next: Tree)
    ensures BuildLval(lv, Nil).Node? && BuildLval(lv, Nil).sibling.Nil?
    ensures BuildLval(lv, next) == BuildLval(lv, Nil).(sibling := next)
  {
  }

  lemma Regroup(a: seq<Token>, t: Token, b: seq<Token>, c: seq<Token>)
    ensures (a + [t] + b) + c == a + ([t] + (b + c))
    ensures ([t] + b) + c == [t] + (b + c) && ([t] + (b + c))[0] == t && ([t] + (b + c))[1..] == b + c
    ensures ([t] + b)[1..] == b && (a + b) + c == a + (b + c)
  {
  }

  /** What is read at the level of prefix operators is read the same at a lower level, if nothing follows
      that would continue it there. */
  lemma {:induction false} Descend(env: Symbols, l: nat, ts: seq<Token>, t: Tree, rest: seq<Token>)
    requires l <= UNARY && Parse(env, UNARY, ts) == Some((t, rest)) && Stops(l, rest)
    ensures Parse(env, l, ts) == Some((t, rest))
    decreases UNARY - l
  {
    if l < UNARY { Descend(env, l + 1, ts, t, rest); }
  }

  /** The tokens of an expression at its level parse to its tree, leaving what follows. */
  lemma {:induction false} Trip(env: Symbols, names: Names, l: nat, e: Expr, ts: seq<Token>)
    requires l <= POSTFIX && Fits(l, e) && Known(names, e) && Named(env, names) && Stops(l, ts)
    ensures Parse(env, l, Print(names, e) + ts) == Some((Build(e, Nil), ts))
    decreases e, 20 - l, 1
  {
    if l < UNARY {
      Left(env, names, l, e, ts);
    } else if l == UNARY {
      TripUnary(env, names, e, ts);
    } else {
      TripPostfix(env, names, e, ts);
    }
  }

  /** An expression of a binary level is read up to the loop of that level. */
  lemma {:induction false} Left(env: Symbols, names: Names, l: nat, e: Expr, ts: seq<Token>)
    requires l < UNARY && Fits(l, e) && Known(names, e) && Named(env, names) && Stops(l + 1, ts)
    ensures Build(e, Nil).Node? && Build(e, Nil).sibling.Nil?
    ensures Parse(env, l, Print(names, e) + ts) == Loop(env, l, Build(e, Nil), ts)
    decreases e, 20 - l, 0
  {
    BuildSibling(e, Nil);
    if e.Binary? && Level(e.op) == l {
      var more := [Operator(e.op)] + (Print(names, e.r) + ts);
      Regroup(Print(names, e.l), Operator(e.op), Print(names, e.r), ts);
      Left(env, names, l, e.l, more);
      Trip(env, names, l + 1, e.r, ts);
      BuildSibling(e.l, Build(e.r, Nil));
    } else {
      Trip(env, names, l + 1, e, ts);
    }
  }

  /** A prefix operator before an operand. */
  lemma PrefixTrip(env: Symbols, t: Token, x: Tree, rest: seq<Token>, ts: seq<Token>)
    requires Prefix(t).Some? && Parse(env, UNARY, rest) == Some((x, ts))
    ensures x.Node? && Parse(env, UNARY, [t] + rest) == Some((Sys(Prefix(t).value, x, Nil), ts))
  {
    assert ([t] + rest)[1..] == rest;
  }

  lemma {:induction false} TripUnary(env: Symbols, names: Names, e: Expr, ts: seq<Token>)
    requires Fits(UNARY, e) && Known(names, e) && Named(env, names) && Stops(UNARY, ts)
    ensures Parse(env, UNARY, Print(names, e) + ts) == Some((Build(e, Nil), ts))
    decreases e, 20 - UNARY, 0
  {
    hide Parse, Stops;
    match e
    case AddrOf(lv) =>
      Regroup([], Operator(And), PrintLval(names, lv), ts);
      LvalTrip(env, names, lv, ts);
      LvalSibling(lv, Nil);
      PrefixTrip(env, Operator(And), BuildLval(lv, Nil), PrintLval(names, lv) + ts, ts);
    case Load(LDeref(p)) =>
      Regroup([], Operator(Mul), Print(names, p), ts);
      Trip(env, names, UNARY, p, ts);
      BuildSibling(p, Nil);
      PrefixTrip(env, Operator(Mul), Build(p, Nil), Print(names, p) + ts, ts);
    case Compl(x) =>
      Regroup([], Tilde, Print(names, x), ts);
      Trip(env, names, UNARY, x, ts);
      BuildSibling(x, Nil);
      PrefixTrip(env, Tilde, Build(x, Nil), Print(names, x) + ts, ts);
    case Pre(up, lv) =>
      Regroup([], if up then IncTok else DecTok, PrintLval(names, lv), ts);
      LvalTrip(env, names, lv, ts);
      LvalSibling(lv, Nil);
      PrefixTrip(env, if up then IncTok else DecTok, BuildLval(lv, Nil), PrintLval(names, lv) + ts, ts);
    case Load(LVar(_)) => TripPostfix(env, names, e, ts);
    case Const(_, _) => TripPostfix(env, names, e, ts);
    case Post(_, _) => TripPostfix(env, names, e, ts);
    case Call(_, _) => TripPostfix(env, names, e, ts);
  }

  lemma {:induction false} LvalTrip(env: Symbols, names: Names, lv: Lval, ts: seq<Token>)
    requires FitsLval(lv) && KnownLval(names, lv) && Named(env, names) && Stops(UNARY, ts)
    ensures Parse(env, UNARY, PrintLval(names, lv) + ts) == Some((BuildLval(lv, Nil), ts))
    decreases lv
  {
    match lv
    case LVar(id) =>
      NameTrip(env, names, id, ts);
    case LDeref(p) =>
      Regroup([], Operator(Mul), Print(names, p), ts);
      Trip(env, names, UNARY, p, ts);
      BuildSibling(p, Nil);
  }

  /** From a primary expression to the loop over what follows it. */
  lemma FromPrimary(env: Symbols, ts: seq<Token>, t: Tree, rest: seq<Token>)
    requires Primary(env, ts) == Some((t, rest)) && t.Node? && t.sibling.Nil?
    ensures Parse(env, POSTFIX, ts) == PostLoop(env, t, rest) &&
              (ts[0] != LParen ==> PostLoop(env, t, rest) == Parse(env, UNARY, ts))
  {
  }

  lemma PostStop(env: Symbols, t: Tree, ts: seq<Token>)
    requires t.Node? && t.sibling.Nil? && Stops(UNARY, ts)
    ensures PostLoop(env, t, ts) == Some((t, ts))
  {
  }

  lemma PostStep(env: Symbols, t: Tree, up: bool, ts: seq<Token>)
    requires t.Node? && t.sibling.Nil?
    ensures PostLoop(env, t, [if up then IncTok else DecTok] + ts) ==
              PostLoop(env, Sys(if up then Inc else Dec, t, Nil), ts)
  {
    var all := [if up then IncTok else DecTok] + ts;
    assert all[1..] == ts;
  }

  lemma PostCall(env: Symbols, t: Tree, a: Tree, inside: seq<Token>, ts: seq<Token>)
    requires t.Node? && t.sibling.Nil?
    requires if a.Nil? then inside == [RParen] + ts
              else !Starts(inside, RParen) && ParseArgs(env, inside) == Some((a, [RParen] + ts))
    ensures PostLoop(env, t, [LParen] + inside) == PostLoop(env, Sys(Func, t, a), ts)
  {
    var all := [LParen] + inside;
    assert all[1..] == inside && ([RParen] + ts)[1..] == ts;
    if a.Nil? { assert all[2..] == ts; }
  }

  lemma {:induction false} TripPostfix(env: Symbols, names: Names, e: Expr, ts: seq<Token>)
    requires Fits(UNARY, e) && (e.Const? || e.Post? || e.Call? || (e.Load? && e.lv.LVar?))
    requires Known(names, e) && Named(env, names) && Stops(UNARY, ts)
    ensures Parse(env, POSTFIX, Print(names, e) + ts) == Some((Build(e, Nil), ts))
    ensures Parse(env, UNARY, Print(names, e) + ts) == Some((Build(e, Nil), ts))
    decreases e, 0, 0
  {
    hide Parse, PostLoop, Primary, Stops;
    match e
    case Const(k, v) =>
      ValueTrip(env, k, v, ts);
    case Load(LVar(id)) =>
      NameTrip(env, names, id, ts);
    case Post(up, LVar(id)) =>
      var step := if up then IncTok else DecTok;
      assert Print(names, e) + ts == [NameOf(names, id)] + ([step] + ts);
      NamePrimary(env, names, id, [step] + ts);
      FromPrimary(env, [NameOf(names, id)] + ([step] + ts), Atom(Id, id, 0), [step] + ts);
      PostStep(env, Atom(Id, id, 0), up, ts);
      PostStop(env, Sys(if up then Inc else Dec, Atom(Id, id, 0), Nil), ts);
    case Call(f, args) =>
      CallTrip(env, names, f, args, ts);
  }

  lemma ValueTrip(env: Symbols, k: NodeType, v: Word, ts: seq<Token>)
    requires Stops(UNARY, ts)
    ensures Parse(env, POSTFIX, [Value(k, v)] + ts) == Some((Atom(k, NoIdent, v), ts)) ==
              Parse(env, UNARY, [Value(k, v)] + ts)
  {
    hide Parse, PostLoop;
    assert ([Value(k, v)] + ts)[1..] == ts;
    FromPrimary(env, [Value(k, v)] + ts, Atom(k, NoIdent, v), ts);
    PostStop(env, Atom(k, NoIdent, v), ts);
  }

  lemma NamePrimary(env: Symbols, names: Names, id: Ident, ts: seq<Token>)
    requires id in names && Named(env, names)
    ensures Primary(env, [NameOf(names, id)] + ts) == Some((Atom(Id, id, 0), ts))
  {
    assert ([NameOf(names, id)] + ts)[1..] == ts;
  }

  lemma NameTrip(env: Symbols, names: Names, id: Ident, ts: seq<Token>)
    requires id in names && Named(env, names) && Stops(UNARY, ts)
    ensures Parse(env, POSTFIX, [NameOf(names, id)] + ts) == Some((Atom(Id, id, 0), ts))
    ensures Parse(env, UNARY, [NameOf(names, id)] + ts) == Some((Atom(Id, id, 0), ts))
  {
    hide Parse, PostLoop, Primary;
    NamePrimary(env, names, id, ts);
    FromPrimary(env, [NameOf(names, id)] + ts, Atom(Id, id, 0), ts);
    PostStop(env, Atom(Id, id, 0), ts);
  }

  lemma {:induction false} CallTrip(env: Symbols, names: Names, f: Ident, args: Args, ts: seq<Token>)
    requires f in names && FitsArgs(args) && KnownArgs(names, args) && Named(env, names) && Stops(UNARY, ts)
    ensures Parse(env, POSTFIX, Print(names, Call(f, args)) + ts) == Some((Build(Call(f, args), Nil), ts))
    ensures Parse(env, UNARY, Print(names, Call(f, args)) + ts) == Some((Build(Call(f, args), Nil), ts))
    decreases args, 100
  {
    hide Parse, PostLoop, Primary, Stops, ParseArgs;
    var inside := PrintArgs(names, args) + ([RParen] + ts);
    var leaf, rest := Atom(Id, f, 0), [LParen] + inside;
    assert Print(names, Call(f, args)) + ts == [NameOf(names, f)] + rest;
    NamePrimary(env, names, f, rest);
    FromPrimary(env, [NameOf(names, f)] + rest, leaf, rest);
    if args.NoArgs? {
      assert inside == [RParen] + ts;
    } else {
      ArgsTrip(env, names, args, [RParen] + ts);
      ArgsNode(args);
    }
    PostCall(env, leaf, BuildArgs(args), inside, ts);
    PostStop(env, Sys(Func, leaf, BuildArgs(args)), ts);
  }

  lemma ArgsNode(args: Args)
    ensures BuildArgs(args).Nil? <==> args.NoArgs?
  {
    if args.Arg? { BuildSibling(args.e, BuildArgs(args.rest)); }
  }

  lemma {:induction false} ArgsTrip(env: Symbols, names: Names, a: Args, ts: seq<Token>)
    requires a.Arg? && FitsArgs(a) && KnownArgs(names, a) && Named(env, names) && Starts(ts, RParen)
    ensures ParseArgs(env, PrintArgs(names, a) + ts) == Some((BuildArgs(a), ts)) &&
              !Starts(PrintArgs(names, a) + ts, RParen)
    decreases a, 50
  {
    PrintStarts(names, a.e);
    if a.rest.NoArgs? {
      assert PrintArgs(names, a) + ts == Print(names, a.e) + ts;
      AssignTrip(env, names, a.e, ts);
    } else {
      var more := [Comma] + (PrintArgs(names, a.rest) + ts);
      assert PrintArgs(names, a) + ts == Print(names, a.e) + more;
      assert more[1..] == PrintArgs(names, a.rest) + ts;
      AssignTrip(env, names, a.e, more);
      ArgsTrip(env, names, a.rest, ts);
    }
    BuildSibling(a.e, BuildArgs(a.rest));
  }

  /** No expression starts with a parenthesis. */
  lemma {:induction false} PrintStarts(names: Names, e: Expr)
    ensures Print(names, e) != [] && Print(names, e)[0] != RParen && Print(names, e)[0] != LParen
    ensures Print(names, e)[0] != Semicolon && (Known(names, e) ==> Print(names, e)[0] != BadTok)
  {
    match e
    case Binary(op, x, y) => PrintStarts(names, x);
    case Load(lv) => LvalStarts(names, lv);
    case Post(_, lv) => LvalStarts(names, lv);
    case Set(lv, _) => LvalStarts(names, lv);
    case _ =>
  }

  lemma LvalStarts(names: Names, lv: Lval)
    ensures var ts := PrintLval(names, lv);
            ts != [] && (ts[0] == Operator(Mul) || ts[0].Name? || (ts[0] == BadTok && !KnownLval(names, lv)))
  {
  }

  lemma {:induction false} AssignTrip(env: Symbols, names: Names, e: Expr, ts: seq<Token>)
    requires FitsAssign(e) && Known(names, e) && Named(env, names) && Stops(0, ts) && !Starts(ts, AssignTok)
    ensures ParseAssign(env, Print(names, e) + ts) == Some((Build(e, Nil), ts))
    decreases e, 100
  {
    match e
    case Set(lv, x) =>
      var more := [AssignTok] + (Print(names, x) + ts);
      Regroup(PrintLval(names, lv), AssignTok, Print(names, x), ts);
      LvalTrip(env, names, lv, more);
      Descend(env, 0, PrintLval(names, lv) + more, BuildLval(lv, Nil), more);
      AssignTrip(env, names, x, ts);
      LvalSibling(lv, Build(x, Nil));
    case _ =>
      Trip(env, names, 0, e, ts);
  }

  /** finsh_parser_run builds, for the tokens of a line of statements, exactly the chain of their trees. */
  lemma {:induction false} LineTrip(env: Symbols, names: Names, p: Stmts, root: bool)
    requires FitsAll(p) && KnownAll(names, p) && Named(env, names)
    ensures ParseLine(env, PrintAll(names, p), root) == Some(BuildAll(p))
  {
    hide ParseAssign, Print;
    match p
    case Last(e) =>
      AssignTrip(env, names, e, [Semicolon]);
      PrintStarts(names, e);
      BuildSibling(e, Nil);
      assert PrintAll(names, p)[0] == Print(names, e)[0] && [Semicolon][1..] == [];
    case Then(e, rest) =>
      var more := [Semicolon] + PrintAll(names, rest);
      assert PrintAll(names, p) == Print(names, e) + more && more[1..] == PrintAll(names, rest);
      AssignTrip(env, names, e, more);
      PrintStarts(names, e);
      LineTrip(env, names, rest, true);
      BuildSibling(e, BuildAll(rest));
  }

  /** The empty statement between two others makes the parser lose a token: of `1 ; ; 2 ;` only the
      first statement is left. */
  lemma EmptyStatementDropsToken(env: Symbols)
    ensures ParseLine(env, [Value(ValueInt, 1), Semicolon, Semicolon, Value(ValueInt, 2), Semicolon], false)
         == Some(Atom(ValueInt, NoIdent, 1))
  {
    var ts := [Value(ValueInt, 1), Semicolon, Semicolon, Value(ValueInt, 2), Semicolon];
    var rest := [Semicolon, Semicolon, Value(ValueInt, 2), Semicolon];
    assert ts == [Value(ValueInt, 1)] + rest;
    hide Parse;
    ValueTrip(env, ValueInt, 1, rest);
    Descend(env, 0, ts, Atom(ValueInt, NoIdent, 1), rest);
    assert rest[1..] == [Semicolon, Value(ValueInt, 2), Semicolon] && rest[1..][2..] == [Semicolon];
    assert ParseLine(env, [Semicolon], true) == ParseLine(env, [], true) == Some(Nil);
    assert ParseLine(env, rest[1..], true) == Some(Nil);
  }

  /** A parenthesised operand is no expression: the parenthesis is taken for a cast. */
  lemma ParenthesisRefused(env: Symbols, l: nat, ts: seq<Token>)
    requires l <= UNARY
    ensures Parse(env, l, [LParen] + ts) == None && ParseAssign(env, [LParen] + ts) == None
  {
    LevelRefuses(env, l, ts);
    LevelRefuses(env, 0, ts);
  }

  lemma {:induction false} LevelRefuses(env: Symbols, l: nat, ts: seq<Token>)
    requires l <= UNARY
    ensures Parse(env, l, [LParen] + ts) == None
    decreases UNARY - l
  {
    if l < UNARY { LevelRefuses(env, l + 1, ts); }
  }
}
