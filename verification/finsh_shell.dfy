/** A line of the shell from its tokens to its value: the parser, the compiler and the machine together. */
module FinshShell {
  import opened Machine
  import opened FinshAlu
  import opened FinshVm
  import opened FinshTree
  import opened FinshCompiler
  import opened FinshCorrect
  import opened FinshErrors
  import opened FinshNodes
  import opened FinshGrammar
  import opened FinshParser

  /** Written expressions do not contain the token that stands for the end of the line. */
  lemma {:induction false} PrintNoEof(names: Names, e: Expr)
    ensures NoEof(Print(names, e))
    decreases e
  {
    match e
    case Const(_, _) =>
    case Load(lv) => LvalNoEof(names, lv);
    case AddrOf(lv) => LvalNoEof(names, lv);
    case Compl(x) => PrintNoEof(names, x);
    case Pre(_, lv) => LvalNoEof(names, lv);
    case Post(_, lv) => LvalNoEof(names, lv);
    case Call(_, args) => ArgsNoEof(names, args);
    case Binary(_, x, y) => PrintNoEof(names, x); PrintNoEof(names, y);
    case Set(lv, x) => LvalNoEof(names, lv); PrintNoEof(names, x);
  }

  lemma {:induction false} LvalNoEof(names: Names, lv: Lval)
    ensures NoEof(PrintLval(names, lv))
    decreases lv
  {
    if lv.LDeref? { PrintNoEof(names, lv.p); }
  }

  lemma {:induction false} ArgsNoEof(names: Names, a: Args)
    ensures NoEof(PrintArgs(names, a))
    decreases a
  {
    if a.Arg? {
      PrintNoEof(names, a.e);
      ArgsNoEof(names, a.rest);
    }
  }

  lemma {:induction false} LineNoEof(names: Names, p: Stmts)
    ensures NoEof(PrintAll(names, p))
    decreases p
  {
    PrintNoEof(names, p.e);
    if p.Then? { LineNoEof(names, p.rest); }
  }

  /** finsh_run_line: for every line whose tokens the grammar reads as statements, and tables large enough,
      parsing the tokens, compiling the entries that the parser made and running the bytes gives the value of
      the last statement and its memory if the compiler translates the statements; and if one of them is an
      assignment that the compiler refuses, its error, and nothing is run. */
  method RunTokens(env: Symbols, toks: seq<Token>, table: array<Entry>, textMax: nat, stackMax: nat,
                   mem: Memory, sys: System, ghost p: Stmts)
    returns (error: nat, bottom: Word, mem': Memory)
    requires NoEof(toks) && ParseLine(env, toks, false) == Some(BuildAll(p)) && ShapedAll(p)
    requires !RefusedAll(p) ==>
               CompilableAll(p) && EvalAll(p, mem, sys).Some? && Count(BuildAll(p)) + 2 <= stackMax
    requires Count(BuildAll(p)) <= table.Length && |CodeAll(p)| <= textMax
    modifies table
    ensures RefusedAll(p) ==> error == UNKNOWN_TYPE && mem' == mem
    ensures !RefusedAll(p) ==> error == OK && (bottom, mem') == EvalAll(p, mem, sys).value
  {
    hide NoEof, ParseLine, EvalAll, BuildAll, CompilableAll, ShapedAll, RefusedAll, CodeAll, Holds, Count;
    var token := new Scanner(toks);
    var parser := new Parser(token, env, table);
    var root := parser.ParserRun(0, table[..]);
    error, bottom, mem' := parser.errno, 0, mem;
    if error == OK {
      var compiler := new Compiler(table, textMax);
      error, bottom, mem' := RunLine(compiler, root, p, mem, sys, stackMax);
    }
  }

  /** In particular every line that writes translated statements without parenthesised operands. */
  method RunPrinted(env: Symbols, toks: seq<Token>, table: array<Entry>, textMax: nat, stackMax: nat,
                    mem: Memory, sys: System, ghost names: Names, ghost p: Stmts)
    returns (error: nat, bottom: Word, mem': Memory)
    requires FitsAll(p) && KnownAll(names, p) && Named(env, names) && toks == PrintAll(names, p)
    requires CompilableAll(p) && EvalAll(p, mem, sys).Some?
    requires Count(BuildAll(p)) <= table.Length && |CodeAll(p)| <= textMax && Count(BuildAll(p)) + 2 <= stackMax
    modifies table
    ensures error == OK && (bottom, mem') == EvalAll(p, mem, sys).value
  {
    hide NoEof, ParseLine, EvalAll, BuildAll, CompilableAll, ShapedAll, RefusedAll, CodeAll, Count, PrintAll, FitsAll,
         KnownAll;
    LineNoEof(names, p);
    LineTrip(env, names, p, false);
    AllShaped(p);
    LineAccepted(p);
    error, bottom, mem' := RunTokens(env, toks, table, textMax, stackMax, mem, sys, p);
  }
}
