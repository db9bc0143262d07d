/** Operators and operands without parentheses: what tree the grammar gives such a sequence. */
module FinshPrecedence {
  import opened Machine
  import opened FinshAlu
  import opened FinshVm
  import opened FinshTree
  import opened FinshCompiler
  import opened FinshGrammar

  /** Operands joined by binary operators and assignments. */
  datatype Syntax = Operand(t: Token) | Bin(op: AluOp, l: Syntax, r: Syntax) | Asg(l: Syntax, r: Syntax)

  /** In-order reading. */
  function Flat(s: Syntax): (r: seq<Token>)
    ensures r != []
  {
    match s
    case Operand(t) => [t]
    case Bin(op, l, r) => Flat(l) + [Operator(op)] + Flat(r)
    case Asg(l, r) => Flat(l) + [AssignTok] + Flat(r)
  }

  function TreeOf(env: Symbols, s: Syntax): (t: Tree)
    ensures t.Node? && t.sibling.Nil?
  {
    match s
    case Operand(Name(n)) => Atom(Id, if n in env then env[n] else NoIdent, 0)
    case Operand(Value(k, v)) => Atom(k, NoIdent, v)
    case Operand(_) => Atom(SysNull, NoIdent, 0)
    case Bin(op, l, r) => Sys(SysAlu(op), TreeOf(env, l), TreeOf(env, r))
    case Asg(l, r) => Sys(Assign, TreeOf(env, l), TreeOf(env, r))
  }

  /** Precedence as in C: tighter operators below looser ones, operators of one level to the left,
      assignments to the right. */
  predicate Canon(l: nat, s: Syntax)
    decreases s
  {
    match s
    case Operand(_) => true
    case Bin(op, x, y) => l <= Level(op) && Canon(Level(op), x) && Canon(Level(op) + 1, y)
    case Asg(_, _) => false
  }

  predicate CanonAssign(s: Syntax) {
    match s case Asg(l, r) => Canon(0, l) && CanonAssign(r) case _ => Canon(0, s)
  }

  predicate IsOperand(env: Symbols, t: Token) {
    match t case Name(n) => n in env case Value(_, _) => true case _ => false
  }

  predicate Operands(env: Symbols, s: Syntax) {
    match s
    case Operand(t) => IsOperand(env, t)
    case Bin(_, l, r) => Operands(env, l) && Operands(env, r)
    case Asg(l, r) => Operands(env, l) && Operands(env, r)
  }

  /** Operand, operator, operand, ..., operand. */
  predicate Alternates(env: Symbols, ts: seq<Token>) {
    |ts| % 2 == 1 && forall i ::
        0 <= i < |ts| ==> if i % 2 == 0 then IsOperand(env, ts[i]) else ts[i].Operator? || ts[i] == AssignTok
  }

  // ---- The reference: split at the last of the loosest operators ----

  /** The position of the last operator of level l, or -1. */
  function LastAt(l: nat, ts: seq<Token>): (k: int)
    ensures -1 <= k < |ts|
    ensures k >= 0 ==> ts[k].Operator? && Level(ts[k].op) == l
    ensures forall i :: k < i < |ts| ==> !(ts[i].Operator? && Level(ts[i].op) == l)
  {
    if ts == [] then -1
    else if ts[|ts| - 1].Operator? && Level(ts[|ts| - 1].op) == l then |ts| - 1
    else LastAt(l, ts[..|ts| - 1])
  }

  /** Only operators of level l and tighter, no assignment. */
  predicate AtLeast(l: nat, ts: seq<Token>) {
    forall i :: 0 <= i < |ts| ==> ts[i] != AssignTok && (ts[i].Operator? ==> Level(ts[i].op) >= l)
  }

  lemma Levels(l: nat, ts: seq<Token>)
    requires AtLeast(l, ts)
    ensures var k := LastAt(l, ts);
              if k < 0 then AtLeast(l + 1, ts) else AtLeast(l, ts[..k]) && AtLeast(l + 1, ts[k + 1..])
  {
    var k := LastAt(l, ts);
    if k >= 0 {
      var r := ts[k + 1..];
      forall i | 0 <= i < |r| ensures r[i] != AssignTok && (r[i].Operator? ==> Level(r[i].op) >= l + 1) {
        assert r[i] == ts[k + 1 + i];
      }
    }
  }

  function ReadLevel(env: Symbols, l: nat, ts: seq<Token>): (s: Syntax)
    requires l <= UNARY && Alternates(env, ts) && AtLeast(l, ts)
    ensures Flat(s) == ts && Canon(l, s) && Operands(env, s)
    decreases |ts|, UNARY - l
  {
    hide AtLeast, Alternates;
    if l == UNARY then
      OnlyOperand(env, ts);
      Operand(ts[0])
    else
      Levels(l, ts);
      var k := LastAt(l, ts);
      if k < 0 then
        var s := ReadLevel(env, l + 1, ts);
        CanonLower(l, s);
        s
      else
        Halves(env, ts, k);
        Bin(ts[k].op, ReadLevel(env, l, ts[..k]), ReadLevel(env, l + 1, ts[k + 1..]))
  }

  /** The first assignment separates what is assigned to from the rest. */
  function FirstAssign(ts: seq<Token>): (k: int)
    ensures -1 <= k < |ts| && (k >= 0 ==> ts[k] == AssignTok)
    ensures forall i :: 0 <= i < (if k < 0 then |ts| else k) ==> ts[i] != AssignTok
  {
    if ts == [] then -1 else if ts[0] == AssignTok then 0
    else var k := FirstAssign(ts[1..]); if k < 0 then -1 else k + 1
  }

  function Read(env: Symbols, ts: seq<Token>): (s: Syntax)
    requires Alternates(env, ts)
    ensures Flat(s) == ts && CanonAssign(s) && Operands(env, s)
    decreases |ts|
  {
    var k := FirstAssign(ts);
    if k < 0 then
      ReadLevel(env, 0, ts)
    else
      Halves(env, ts, k);
      Asg(ReadLevel(env, 0, ts[..k]), Read(env, ts[k + 1..]))
  }

  lemma SecondJoins(env: Symbols, ts: seq<Token>)
    requires Alternates(env, ts) && |ts| > 1
    ensures ts[1].Operator? || ts[1] == AssignTok
  {
  }

  lemma OnlyOperand(env: Symbols, ts: seq<Token>)
    requires Alternates(env, ts) && AtLeast(UNARY, ts)
    ensures |ts| == 1 && ts == [ts[0]] && IsOperand(env, ts[0])
  {
    if |ts| > 1 { SecondJoins(env, ts); }
  }

  lemma CanonLower(l: nat, s: Syntax)
    requires Canon(l + 1, s)
    ensures Canon(l, s)
  {
  }

  lemma Halves(env: Symbols, ts: seq<Token>, k: int)
    requires Alternates(env, ts) && 0 <= k < |ts| && (ts[k].Operator? || ts[k] == AssignTok)
    ensures k % 2 == 1 && Alternates(env, ts[..k]) && Alternates(env, ts[k + 1..]) &&
              ts == ts[..k] + [ts[k]] + ts[k + 1..]
  {
    var r := ts[k + 1..];
    forall i | 0 <= i < |r| ensures if i % 2 == 0 then IsOperand(env, r[i]) else r[i].Operator? || r[i] == AssignTok {
      assert r[i] == ts[k + 1 + i] && (k + 1 + i) % 2 == i % 2;
    }
  }

  // ---- The parser computes the reference ----

  lemma {:induction false} ReadsLevel(env: Symbols, l: nat, s: Syntax, ts: seq<Token>)
    requires l <= UNARY && Canon(l, s) && Operands(env, s) && Stops(l, ts)
    ensures Parse(env, l, Flat(s) + ts) == Some((TreeOf(env, s), ts))
    decreases s, UNARY - l, 1
  {
    if l < UNARY {
      ReadsLeft(env, l, s, ts);
    } else {
      var all := Flat(s) + ts;
      assert s.Operand? && all[1..] == ts;
      FromPrimary(env, all, TreeOf(env, s), ts);
      PostStop(env, TreeOf(env, s), ts);
    }
  }

  lemma {:induction false} ReadsLeft(env: Symbols, l: nat, s: Syntax, ts: seq<Token>)
    requires l < UNARY && Canon(l, s) && Operands(env, s) && Stops(l + 1, ts)
    ensures Parse(env, l, Flat(s) + ts) == Loop(env, l, TreeOf(env, s), ts)
    decreases s, UNARY - l, 0
  {
    if s.Bin? && Level(s.op) == l {
      var more := [Operator(s.op)] + (Flat(s.r) + ts);
      Regroup(Flat(s.l), Operator(s.op), Flat(s.r), ts);
      ReadsLeft(env, l, s.l, more);
      ReadsLevel(env, l + 1, s.r, ts);
    } else {
      ReadsLevel(env, l + 1, s, ts);
    }
  }

  lemma {:induction false} ReadsAssign(env: Symbols, s: Syntax, ts: seq<Token>)
    requires CanonAssign(s) && Operands(env, s) && Stops(0, ts) && !Starts(ts, AssignTok)
    ensures ParseAssign(env, Flat(s) + ts) == Some((TreeOf(env, s), ts))
    decreases s
  {
    match s
    case Asg(x, y) =>
      var more := [AssignTok] + (Flat(y) + ts);
      Regroup(Flat(x), AssignTok, Flat(y), ts);
      ReadsLevel(env, 0, x, more);
      ReadsAssign(env, y, ts);
    case _ => ReadsLevel(env, 0, s, ts);
  }

  /** For every sequence of operands joined by operators: the parser reads it all, up to the token that
      does not continue it, and returns the tree of the reference, whose in-order reading it is. */
  lemma ParserReads(env: Symbols, ts: seq<Token>, rest: seq<Token>)
    requires Alternates(env, ts) && Stops(0, rest) && !Starts(rest, AssignTok)
    ensures ParseAssign(env, ts + rest) == Some((TreeOf(env, Read(env, ts)), rest))
  {
    ReadsAssign(env, Read(env, ts), rest);
  }

  // ---- There is only one such tree ----

  lemma {:induction false} LastOf(l: nat, a: seq<Token>, op: AluOp, b: seq<Token>)
    requires Level(op) == l && AtLeast(l + 1, b)
    ensures LastAt(l, a + [Operator(op)] + b) == |a|
    decreases |b|
  {
    var ts := a + [Operator(op)] + b;
    if b == [] {
      assert ts[|ts| - 1] == Operator(op);
    } else {
      assert ts[|ts| - 1] == b[|b| - 1];
      assert ts[..|ts| - 1] == a + [Operator(op)] + b[..|b| - 1];
      LastOf(l, a, op, b[..|b| - 1]);
    }
  }

  /** The operators of a canonical expression. */
  lemma {:induction false} CanonLevels(env: Symbols, l: nat, s: Syntax)
    requires Canon(l, s) && Operands(env, s)
    ensures AtLeast(l, Flat(s)) && Alternates(env, Flat(s))
    decreases s
  {
    if s.Bin? {
      CanonLevels(env, Level(s.op), s.l);
      CanonLevels(env, Level(s.op) + 1, s.r);
      Joined(env, Flat(s.l), Operator(s.op), Flat(s.r));
    }
  }

  lemma Joined(env: Symbols, a: seq<Token>, t: Token, b: seq<Token>)
    requires Alternates(env, a) && Alternates(env, b) && (t.Operator? || t == AssignTok)
    ensures Alternates(env, a + [t] + b)
  {
    var ts := a + [t] + b;
    forall i | 0 <= i < |ts| ensures if i % 2 == 0 then IsOperand(env, ts[i])
        else ts[i].Operator? || ts[i] == AssignTok {
      if i > |a| { assert ts[i] == b[i - |a| - 1] && (i - |a| - 1) % 2 == i % 2; }
    }
  }

  lemma SplitHere(env: Symbols, l: nat, s: Syntax)
    requires s.Bin? && Level(s.op) == l && Canon(l, s) && Operands(env, s)
    ensures var ts, k := Flat(s), |Flat(s.l)|;
            LastAt(l, ts) == k && ts[k] == Operator(s.op) && ts[..k] == Flat(s.l) && ts[k + 1..] == Flat(s.r)
  {
    CanonLevels(env, l + 1, s.r);
    LastOf(l, Flat(s.l), s.op, Flat(s.r));
  }

  lemma NoneHere(l: nat, ts: seq<Token>)
    requires AtLeast(l + 1, ts)
    ensures LastAt(l, ts) < 0
  {
    var k := LastAt(l, ts);
  }

  lemma {:induction false} ReadsBackLevel(env: Symbols, l: nat, s: Syntax)
    requires l <= UNARY && Canon(l, s) && Operands(env, s)
    ensures AtLeast(l, Flat(s)) && Alternates(env, Flat(s)) && ReadLevel(env, l, Flat(s)) == s
    decreases s, UNARY - l
  {
    hide Flat, LastAt, AtLeast, Alternates, ReadLevel;
    CanonLevels(env, l, s);
    if l == UNARY {
      OperandAlone(s);
      ReadOperand(env, s.t);
    } else if s.Bin? && Level(s.op) == l {
      SplitHere(env, l, s);
      ReadsBackLevel(env, l, s.l);
      ReadsBackLevel(env, l + 1, s.r);
      ReadHere(env, l, Flat(s), s.l, s.r);
    } else {
      CanonLevels(env, l + 1, s);
      NoneHere(l, Flat(s));
      ReadsBackLevel(env, l + 1, s);
      ReadAbove(env, l, Flat(s));
    }
  }

  lemma ReadOperand(env: Symbols, t: Token)
    requires Alternates(env, [t]) && AtLeast(UNARY, [t])
    ensures ReadLevel(env, UNARY, [t]) == Operand(t)
  {
  }

  lemma ReadAbove(env: Symbols, l: nat, ts: seq<Token>)
    requires l < UNARY && Alternates(env, ts) && AtLeast(l, ts) && AtLeast(l + 1, ts) && LastAt(l, ts) < 0
    ensures ReadLevel(env, l, ts) == ReadLevel(env, l + 1, ts)
  {
  }

  lemma ReadHere(env: Symbols, l: nat, ts: seq<Token>, x: Syntax, y: Syntax)
    requires l < UNARY && Alternates(env, ts) && AtLeast(l, ts) && LastAt(l, ts) >= 0
    requires var k := LastAt(l, ts);
             Alternates(env, ts[..k]) && AtLeast(l, ts[..k]) && Alternates(env, ts[k + 1..]) &&
                 AtLeast(l + 1, ts[k + 1..]) &&
             ReadLevel(env, l, ts[..k]) == x && ReadLevel(env, l + 1, ts[k + 1..]) == y
    ensures ReadLevel(env, l, ts) == Bin(ts[LastAt(l, ts)].op, x, y)
  {
  }

  lemma OperandAlone(s: Syntax)
    requires s.Operand?
    ensures Flat(s) == [s.t]
  {
  }

  lemma ReadAsg(env: Symbols, a: seq<Token>, b: seq<Token>)
    requires Alternates(env, a) && Alternates(env, b) && AtLeast(0, a)
    ensures Alternates(env, a + [AssignTok] + b) &&
              Read(env, a + [AssignTok] + b) == Asg(ReadLevel(env, 0, a), Read(env, b))
  {
    hide ReadLevel, Alternates;
    var ts := a + [AssignTok] + b;
    Joined(env, a, AssignTok, b);
    FirstIs(a, b);
    assert ts[..|a|] == a && ts[|a| + 1..] == b;
  }

  lemma ReadPlain(env: Symbols, ts: seq<Token>)
    requires Alternates(env, ts) && AtLeast(0, ts)
    ensures Read(env, ts) == ReadLevel(env, 0, ts)
  {
    hide ReadLevel, Alternates;
  }

  lemma {:induction false} ReadsBack(env: Symbols, s: Syntax)
    requires CanonAssign(s) && Operands(env, s)
    ensures Alternates(env, Flat(s)) && Read(env, Flat(s)) == s
    decreases s
  {
    hide ReadLevel, Read, Alternates, AtLeast;
    match s
    case Asg(x, y) =>
      ReadsBackLevel(env, 0, x);
      ReadsBack(env, y);
      ReadAsg(env, Flat(x), Flat(y));
    case _ =>
      ReadsBackLevel(env, 0, s);
      ReadPlain(env, Flat(s));
  }

  lemma {:induction false} FirstIs(a: seq<Token>, b: seq<Token>)
    requires forall i :: 0 <= i < |a| ==> a[i] != AssignTok
    ensures FirstAssign(a + [AssignTok] + b) == |a|
    decreases |a|
  {
    var ts := a + [AssignTok] + b;
    if a != [] {
      assert ts[1..] == a[1..] + [AssignTok] + b;
      FirstIs(a[1..], b);
    }
  }

  /** Precedence and associativity leave no choice: two canonical trees with the same reading are equal. */
  lemma CanonicalUnique(env: Symbols, s: Syntax, u: Syntax)
    requires CanonAssign(s) && CanonAssign(u) && Operands(env, s) && Operands(env, u) && Flat(s) == Flat(u)
    ensures s == u
  {
    ReadsBack(env, s);
    ReadsBack(env, u);
  }
}
