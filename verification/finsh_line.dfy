/** Empty statements on a line: what finsh_parser_run makes of further semicolons between statements. */
module FinshLine {
  import opened Machine
  import opened FinshAlu
  import opened FinshVm
  import opened FinshTree
  import opened FinshCompiler
  import opened FinshCorrect
  import opened FinshGrammar

  /** Statements, each with its semicolon and k further ones. */
  datatype Padded = End | Line(e: Expr, k: nat, rest: Padded)

  function Semis(n: nat): seq<Token> { if n == 0 then [] else [Semicolon] + Semis(n - 1) }

  function PrintPadded(names: Names, p: Padded): seq<Token> {
    match p
    case End => []
    case Line(e, k, rest) => Print(names, e) + [Semicolon] + (Semis(k) + PrintPadded(names, rest))
  }

  /** The chain of the trees of all statements. */
  function Chain(p: Padded): Tree { match p case End => Nil case Line(e, _, rest) => Build(e, Chain(rest)) }

  /** The tokens of each statement, without semicolons. */
  function Statements(names: Names, p: Padded): seq<seq<Token>> {
    match p case End => [] case Line(e, _, rest) => [Print(names, e)] + Statements(names, rest)
  }

  predicate FitsPadded(names: Names, p: Padded) {
    match p case End => true case Line(e, _, rest) => FitsAssign(e) && Known(names, e) && FitsPadded(names, rest)
  }

  /** Before every later statement stands an even number of further semicolons. */
  predicate Even(p: Padded) {
    match p case End => true case Line(_, k, rest) => (rest.End? || k % 2 == 0) && Even(rest)
  }

  /** What is read: behind the first odd run before a statement, that statement has lost its first token. */
  function Reading(env: Symbols, names: Names, p: Padded): Option<Tree> {
    match p
    case End => Some(Nil)
    case Line(e, k, rest) =>
      var more :=
        if rest.End? || k % 2 == 0 then Reading(env, names, rest)
        else ParseLine(env, PrintPadded(names, rest)[1..], true);
      if more.None? then None else Some(Build(e, more.value))
  }

  /** The tokens from which finsh_parser_run reads the statements of a line, one sequence for each. */
  function Spans(env: Symbols, ts: seq<Token>, root: bool): Option<seq<seq<Token>>>
    decreases |ts|
  {
    if ts == [] || ts[0] == BadTok then Some([])
    else if ts[0] == Semicolon then
      if root then Spans(env, if |ts| > 1 then ts[2..] else [], true) else Some([])
    else
      match ParseAssign(env, ts) case None => None
      case Some((_, rest)) =>
        if !Starts(rest, Semicolon) then None
        else
          match Spans(env, rest[1..], true) case None => None
          case Some(more) => Some([ts[..|ts| - |rest|]] + more)
  }

  /** There is one for each statement that is read. */
  lemma {:induction false} SpansMatch(env: Symbols, ts: seq<Token>, root: bool)
    ensures Spans(env, ts, root).Some? <==> ParseLine(env, ts, root).Some?
    ensures Spans(env, ts, root).Some? ==> |Spans(env, ts, root).value| == Siblings(ParseLine(env, ts, root).value)
    decreases |ts|
  {
    hide ParseAssign;
    if ts == [] || ts[0] == BadTok {
    } else if ts[0] == Semicolon {
      if root { SpansMatch(env, if |ts| > 1 then ts[2..] else [], true); }
    } else {
      var r := ParseAssign(env, ts);
      if r.Some? && Starts(r.value.1, Semicolon) { SpansMatch(env, r.value.1[1..], true); }
    }
  }

  function Skipped(n: nat, ts: seq<Token>): seq<Token> { if n % 2 == 0 || ts == [] then ts else ts[1..] }

  /** Of a run of empty statements each takes the token after it: an even run takes only semicolons, an
      odd one the token behind it. */
  lemma {:induction false} RunOfEmpties(env: Symbols, n: nat, ts: seq<Token>)
    ensures ParseLine(env, Semis(n) + ts, true) == ParseLine(env, Skipped(n, ts), true)
    ensures Spans(env, Semis(n) + ts, true) == Spans(env, Skipped(n, ts), true)
    decreases n
  {
    var all := Semis(n) + ts;
    if n == 0 {
      assert all == ts;
    } else if n == 1 {
      assert all == [Semicolon] + ts;
      if ts != [] { assert all[2..] == ts[1..]; }
    } else {
      assert all == [Semicolon, Semicolon] + (Semis(n - 2) + ts);
      assert all[2..] == Semis(n - 2) + ts;
      RunOfEmpties(env, n - 2, ts);
    }
  }

  /** One statement and what follows it. */
  lemma Step(env: Symbols, names: Names, p: Padded, root: bool)
    requires p.Line? && FitsPadded(names, p) && Named(env, names)
    ensures var more := Skipped(p.k, PrintPadded(names, p.rest));
            && ParseLine(env, PrintPadded(names, p), root) ==
               (match ParseLine(env, more, true) case None => None case Some(t) => Some(Build(p.e, t)))
            && Spans(env, PrintPadded(names, p), root) ==
               (match Spans(env, more, true) case None => None case Some(u) => Some([Print(names, p.e)] + u))
  {
    hide ParseAssign, Print;
    var after := Semis(p.k) + PrintPadded(names, p.rest);
    var ts, tail := PrintPadded(names, p), [Semicolon] + after;
    assert ts == Print(names, p.e) + tail && tail[1..] == after;
    AssignTrip(env, names, p.e, tail);
    PrintStarts(names, p.e);
    RunOfEmpties(env, p.k, PrintPadded(names, p.rest));
    var more := ParseLine(env, after, true);
    if more.Some? { BuildSibling(p.e, more.value); }
    assert ts[..|ts| - |tail|] == Print(names, p.e);
  }

  /** What every line of statements is read as, whatever semicolons stand between them. */
  lemma {:induction false} LineReads(env: Symbols, names: Names, p: Padded, root: bool)
    requires FitsPadded(names, p) && Named(env, names)
    ensures ParseLine(env, PrintPadded(names, p), root) == Reading(env, names, p)
    decreases p
  {
    if p.Line? {
      Step(env, names, p, root);
      LineReads(env, names, p.rest, true);
    }
  }

  /** With even runs only, that is all statements. */
  lemma {:induction false} EvenKeepsAll(env: Symbols, names: Names, p: Padded)
    requires Even(p)
    ensures Reading(env, names, p) == Some(Chain(p))
    decreases p
  {
    if p.Line? { EvenKeepsAll(env, names, p.rest); }
  }

  // ---- What the parser leaves is the end of what it got ----

  predicate Suffix(ts: seq<Token>, rest: seq<Token>) { |rest| <= |ts| && rest == ts[|ts| - |rest|..] }

  lemma SuffixStep(ts: seq<Token>, k: nat, rest: seq<Token>)
    requires k <= |ts| && Suffix(ts[k..], rest)
    ensures Suffix(ts, rest)
  {
  }

  lemma SuffixTrans(a: seq<Token>, b: seq<Token>, c: seq<Token>)
    requires Suffix(a, b) && Suffix(b, c)
    ensures Suffix(a, c)
  {
    SuffixStep(a, |a| - |b|, c);
  }

  lemma {:induction false} ParseSuffix(env: Symbols, l: nat, ts: seq<Token>)
    requires l <= POSTFIX && Parse(env, l, ts).Some?
    ensures Suffix(ts, Parse(env, l, ts).value.1)
    decreases |ts|, 10 - l
  {
    var rest := Parse(env, l, ts).value.1;
    if l < UNARY {
      var (t, mid) := Parse(env, l + 1, ts).value;
      ParseSuffix(env, l + 1, ts);
      LoopSuffix(env, l, t, mid);
      SuffixTrans(ts, mid, rest);
    } else if l == UNARY {
      if Prefix(ts[0]).Some? || ts[0] == Operator(Add) || ts[0] == Operator(Sub) {
        ParseSuffix(env, UNARY, ts[1..]);
        SuffixStep(ts, 1, rest);
      } else {
        ParseSuffix(env, POSTFIX, ts);
      }
    } else {
      var (t, mid) := Primary(env, ts).value;
      PrimarySuffix(env, ts);
      PostSuffix(env, t, mid);
      SuffixTrans(ts, mid, rest);
    }
  }

  lemma {:induction false} PrimarySuffix(env: Symbols, ts: seq<Token>)
    requires Primary(env, ts).Some?
    ensures Suffix(ts, Primary(env, ts).value.1)
    decreases |ts|, 2
  {
    if ts[0] == LParen {
      var mid := ParseAssign(env, ts[1..]).value.1;
      AssignSuffix(env, ts[1..]);
      SuffixStep(ts, 1, mid);
      SuffixTrans(ts, mid, mid[1..]);
    }
  }

  lemma {:induction false} LoopSuffix(env: Symbols, l: nat, t: Tree, ts: seq<Token>)
    requires l < UNARY && t.Node? && t.sibling.Nil? && Loop(env, l, t, ts).Some?
    ensures Suffix(ts, Loop(env, l, t, ts).value.1)
    decreases |ts|, 0
  {
    if OpAt(l, ts) {
      var (u, mid) := Parse(env, l + 1, ts[1..]).value;
      var rest := Loop(env, l, t, ts).value.1;
      ParseSuffix(env, l + 1, ts[1..]);
      SuffixStep(ts, 1, mid);
      LoopSuffix(env, l, Sys(SysAlu(ts[0].op), t, u), mid);
      SuffixTrans(ts, mid, rest);
    }
  }

  lemma {:induction false} PostSuffix(env: Symbols, t: Tree, ts: seq<Token>)
    requires t.Node? && t.sibling.Nil? && PostLoop(env, t, ts).Some?
    ensures Suffix(ts, PostLoop(env, t, ts).value.1)
    decreases |ts|, 0
  {
    hide Parse, ParseAssign, ParseArgs;
    var rest := PostLoop(env, t, ts).value.1;
    if Starts(ts, IncTok) {
      PostSuffix(env, Sys(Inc, t, Nil), ts[1..]);
      SuffixStep(ts, 1, rest);
    } else if Starts(ts, DecTok) {
      PostSuffix(env, Sys(Dec, t, Nil), ts[1..]);
      SuffixStep(ts, 1, rest);
    } else if Starts(ts, LParen) {
      if Starts(ts[1..], RParen) {
        PostSuffix(env, Sys(Func, t, Nil), ts[2..]);
        SuffixStep(ts, 2, rest);
      } else {
        var (a, mid) := ParseArgs(env, ts[1..]).value;
        ArgsSuffix(env, ts[1..]);
        SuffixStep(ts, 1, mid);
        PostSuffix(env, Sys(Func, t, a), mid[1..]);
        SuffixStep(mid, 1, rest);
        SuffixTrans(ts, mid, rest);
      }
    }
  }

  lemma {:induction false} AssignSuffix(env: Symbols, ts: seq<Token>)
    requires ParseAssign(env, ts).Some?
    ensures Suffix(ts, ParseAssign(env, ts).value.1)
    decreases |ts|, 11
  {
    var mid := Parse(env, 0, ts).value.1;
    ParseSuffix(env, 0, ts);
    if Starts(mid, AssignTok) {
      var rest := ParseAssign(env, ts).value.1;
      AssignSuffix(env, mid[1..]);
      SuffixStep(mid, 1, rest);
      SuffixTrans(ts, mid, rest);
    }
  }

  lemma {:induction false} ArgsSuffix(env: Symbols, ts: seq<Token>)
    requires ParseArgs(env, ts).Some?
    ensures Suffix(ts, ParseArgs(env, ts).value.1)
    decreases |ts|, 12
  {
    var mid := ParseAssign(env, ts).value.1;
    AssignSuffix(env, ts);
    if Starts(mid, Comma) {
      var rest := ParseArgs(env, ts).value.1;
      ArgsSuffix(env, mid[1..]);
      SuffixStep(mid, 1, rest);
      SuffixTrans(ts, mid, rest);
    }
  }

  // ---- No token is lost exactly if the runs are even ----

  function Weight(ts: seq<Token>): nat {
    if ts == [] then 0 else (if ts[0] == Semicolon then 0 else 1) + Weight(ts[1..])
  }

  function Weights(spans: seq<seq<Token>>): nat {
    if spans == [] then 0 else Weight(spans[0]) + Weights(spans[1..])
  }

  lemma {:induction false} WeightAdd(a: seq<Token>, b: seq<Token>)
    ensures Weight(a + b) == Weight(a) + Weight(b)
    decreases |a|
  {
    if a == [] {
      assert a + b == b;
    } else {
      assert (a + b)[1..] == a[1..] + b;
      WeightAdd(a[1..], b);
    }
  }

  lemma {:induction false} SemisWeigh(n: nat)
    ensures Weight(Semis(n)) == 0
  {
    if n > 0 {
      assert Semis(n)[1..] == Semis(n - 1);
      SemisWeigh(n - 1);
    }
  }

  /** No token is read twice. */
  lemma {:induction false} SpansFit(env: Symbols, ts: seq<Token>, root: bool)
    requires Spans(env, ts, root).Some?
    ensures Weights(Spans(env, ts, root).value) <= Weight(ts)
    decreases |ts|
  {
    hide ParseAssign;
    if ts == [] || ts[0] == BadTok {
    } else if ts[0] == Semicolon {
      if root {
        var next := if |ts| > 1 then ts[2..] else [];
        SpansFit(env, next, true);
        assert ts == ts[..|ts| - |next|] + next;
        WeightAdd(ts[..|ts| - |next|], next);
      }
    } else {
      var rest := ParseAssign(env, ts).value.1;
      AssignSuffix(env, ts);
      var span := ts[..|ts| - |rest|];
      assert ts == span + rest;
      WeightAdd(span, rest);
      SpansFit(env, rest[1..], true);
    }
  }

  lemma {:induction false} PaddedWeigh(names: Names, p: Padded)
    ensures Weights(Statements(names, p)) == Weight(PrintPadded(names, p))
    decreases p
  {
    if p.Line? {
      var (e, k, rest) := (p.e, p.k, p.rest);
      PaddedWeigh(names, rest);
      SemisWeigh(k);
      WeightAdd(Semis(k), PrintPadded(names, rest));
      WeightAdd(Print(names, e), [Semicolon]);
      WeightAdd(Print(names, e) + [Semicolon], Semis(k) + PrintPadded(names, rest));
      assert Weight([Semicolon]) == 0;
      assert Statements(names, p)[1..] == Statements(names, rest);
    }
  }

  /** Every statement of a line is read from its own tokens, and from all of them, if and only if an even
      number of further semicolons stands before each later statement. */
  lemma {:induction false} KeepsAllIffEven(env: Symbols, names: Names, p: Padded, root: bool)
    requires FitsPadded(names, p) && Named(env, names)
    ensures Spans(env, PrintPadded(names, p), root) == Some(Statements(names, p)) <==> Even(p)
    ensures Even(p) ==> ParseLine(env, PrintPadded(names, p), root) == Some(Chain(p))
    decreases p
  {
    if p.Line? {
      Step(env, names, p, root);
      LineReads(env, names, p, root);
      KeepsAllIffEven(env, names, p.rest, true);
      var rest := PrintPadded(names, p.rest);
      assert ([Print(names, p.e)] + Statements(names, p.rest))[1..] == Statements(names, p.rest);
      if p.rest.Line? && p.k % 2 == 1 {
        LostToken(env, names, p.rest);
      } else if Even(p) {
        EvenKeepsAll(env, names, p);
      }
      var u := Spans(env, Skipped(p.k, rest), true);
      if u.Some? { assert ([Print(names, p.e)] + u.value)[1..] == u.value; }
    }
  }

  /** Without its first token a line is not read in full. */
  lemma LostToken(env: Symbols, names: Names, p: Padded)
    requires p.Line? && FitsPadded(names, p)
    ensures PrintPadded(names, p) != []
    ensures Spans(env, PrintPadded(names, p)[1..], true) != Some(Statements(names, p))
  {
    hide Print;
    PrintStarts(names, p.e);
    var ts := PrintPadded(names, p);
    PaddedWeigh(names, p);
    if Spans(env, ts[1..], true).Some? { SpansFit(env, ts[1..], true); }
  }

  /** The tree can be the same although a token is lost: `0 - x` without its zero is read as minus x, which
      is compiled as zero minus x. */
  lemma LostZeroIsUnseen(env: Symbols, names: Names, e: Expr, x: Expr)
    requires FitsAssign(e) && Known(names, e) && Fits(UNARY, x) && Known(names, x) && Named(env, names)
    ensures var p := Line(e, 1, Line(Binary(Sub, Const(ValueLong, 0), x), 0, End));
            !Even(p) && FitsPadded(names, p) && ParseLine(env, PrintPadded(names, p), false) == Some(Chain(p))
  {
    hide Parse, ParseAssign, Fits, Print, Build;
    var q := Binary(Sub, Const(ValueLong, 0), x);
    var last := Line(q, 0, End);
    var p := Line(e, 1, last);
    MinusExpr(names, x);
    assert FitsPadded(names, End) && FitsPadded(names, last);
    Step(env, names, p, false);
    var operand := Print(names, x) + [Semicolon];
    var ts := [Operator(Sub)] + operand;
    assert PrintPadded(names, last) == [Value(ValueLong, 0)] + ts;
    Trip(env, names, UNARY, x, [Semicolon]);
    BuildSibling(x, Nil);
    MinusTrip(env, Build(x, Nil), operand, [Semicolon]);
    Descend(env, 0, ts, Build(q, Nil), [Semicolon]);
    LastReads(env, ts, Build(q, Nil));
    assert Chain(last) == Build(q, Nil);
  }

  lemma MinusExpr(names: Names, x: Expr)
    requires Fits(UNARY, x) && Known(names, x)
    ensures var q := Binary(Sub, Const(ValueLong, 0), x);
            && FitsAssign(q) && Known(names, q)
            && Print(names, q) == [Value(ValueLong, 0)] + [Operator(Sub)] + Print(names, x)
            && Build(q, Nil) == Sys(SysAlu(Sub), Atom(ValueLong, NoIdent, 0), Build(x, Nil))
  {
    assert Fits(5, x);
    var zero := Atom(ValueLong, NoIdent, 0);
    assert zero.Node? && Build(Const(ValueLong, 0), Build(x, Nil)) == zero.(sibling := Build(x, Nil));
  }

  lemma LastReads(env: Symbols, ts: seq<Token>, t: Tree)
    requires ts != [] && ts[0] == Operator(Sub) && Parse(env, 0, ts) == Some((t, [Semicolon])) && t.Node? &&
              t.sibling.Nil?
    ensures ParseLine(env, ts, true) == Some(t)
  {
    hide Parse;
    assert ParseAssign(env, ts) == Some((t, [Semicolon]));
    assert [Semicolon][1..] == [];
    assert ParseLine(env, [], true) == Some(Nil);
  }

  lemma MinusTrip(env: Symbols, x: Tree, ts: seq<Token>, rest: seq<Token>)
    requires Parse(env, UNARY, ts) == Some((x, rest)) && x.Node? && x.sibling.Nil?
    ensures Parse(env, UNARY, [Operator(Sub)] + ts) ==
            Some((Sys(SysAlu(Sub), Atom(ValueLong, NoIdent, 0), x), rest))
  {
    assert ([Operator(Sub)] + ts)[1..] == ts;
  }
}
