/** finsh_parser.c in place: the scanner's one-token replay, and recursive descent that allocates and
    links entries of the node table. */
module FinshParser {
  import opened Machine
  import opened FinshAlu
  import opened FinshVm
  import opened FinshTree
  import opened FinshCompiler
  import opened FinshCorrect
  import opened FinshNodes
  import opened FinshGrammar

  // The error codes of finsh.h.
  const INVALID_TOKEN := 1
  const EXPECT_OPERATOR := 5
  const MEMORY_FULL := 6
  const UNKNOWN_SYMBOL := 13
  const NULL_NODE := 14

  /** A line as the scanner delivers it; the token for its end comes after these. */
  ghost predicate NoEof(ts: seq<Token>) { forall i :: 0 <= i < |ts| ==> ts[i] != Eof }

  /** Some token was read, if there was one. */
  predicate Less(rest: seq<Token>, ts: seq<Token>) { |rest| <= |ts| && (ts != [] ==> |rest| < |ts|) }

  // ---- Chains of siblings ----

  /** u behind the last sibling of t. */
  function Append(t: Tree, u: Tree): Tree { if t.Nil? then u else t.(sibling := Append(t.sibling, u)) }

  /** The entry at the end of the chain that starts at p. */
  ghost predicate LastIs(tab: seq<Entry>, p: int, t: Tree, q: int)
    decreases t
  {
    t.Node? && 0 <= p < |tab| && if t.sibling.Nil? then q == p else LastIs(tab, tab[p].sibling, t.sibling, q)
  }

  lemma {:induction false} AppendHolds(tab: seq<Entry>, p: int, t: Tree, q: int, n: int, u: Tree)
    requires Holds(tab, p, t) && LastIs(tab, p, t, q) && Holds(tab, n, u) && Foot(tab, p, t) !! Foot(tab, n, u)
    requires u.Node? && u.sibling.Nil?
    ensures 0 <= q < |tab| && q in Foot(tab, p, t)
    ensures var tab' := tab[q := tab[q].(sibling := n)];
            Holds(tab', p, Append(t, u)) && LastIs(tab', p, Append(t, u), n) &&
            Foot(tab', p, Append(t, u)) == Foot(tab, p, t) + Foot(tab, n, u)
    decreases t
  {
    if t.sibling.Nil? {
      var tab' := tab[p := tab[p].(sibling := n)];
      FrameUpdate(tab, p, tab[p].(sibling := n), n, u);
      FrameUpdate(tab, p, tab[p].(sibling := n), tab[p].child, t.child);
    } else {
      AppendHolds(tab, tab[p].sibling, t.sibling, q, n, u);
      var tab' := tab[q := tab[q].(sibling := n)];
      FrameUpdate(tab, q, tab[q].(sibling := n), tab[p].child, t.child);
    }
  }

  lemma {:induction false} AppendCount(t: Tree, u: Tree)
    ensures Count(Append(t, u)) == Count(t) + Count(u)
  {
    if t.Node? { AppendCount(t.sibling, u); }
  }

  // ---- Sizes ----

  lemma PostfixIs(env: Symbols, ts: seq<Token>)
    ensures Primary(env, ts).None? ==> Parse(env, POSTFIX, ts).None?
    ensures Primary(env, ts).Some? ==>
              var (t, rest) := Primary(env, ts).value;
              t.Node? && t.sibling.Nil? && Parse(env, POSTFIX, ts) == PostLoop(env, t, rest)
    ensures Parse(env, POSTFIX, ts).Some? ==> Count(Primary(env, ts).value.0) <= Count(Parse(env, POSTFIX, ts).value.0)
  {
    if Parse(env, POSTFIX, ts).Some? { PostGrows(env, Primary(env, ts).value.0, Primary(env, ts).value.1); }
  }

  lemma UnaryIs(env: Symbols, ts: seq<Token>)
    ensures var r := Parse(env, UNARY, ts);
            if ts != [] && ts[0] == LParen then r.None?
            else if ts != [] && Prefix(ts[0]).Some? then
              var inner := Parse(env, UNARY, ts[1..]);
              if inner.None? then r.None?
              else
                r == Some((Sys(Prefix(ts[0]).value, inner.value.0, Nil), inner.value.1)) &&
                Count(r.value.0) == 1 + Count(inner.value.0)
            else if Starts(ts, Operator(Add)) then
              r == Parse(env, UNARY, ts[1..])
            else if Starts(ts, Operator(Sub)) then
              var inner := Parse(env, UNARY, ts[1..]);
              if inner.None? then r.None?
              else r == Some((Sys(SysAlu(Sub), Atom(ValueLong, NoIdent, 0), inner.value.0), inner.value.1)) &&
                   Count(r.value.0) == 2 + Count(inner.value.0)
            else r == Parse(env, POSTFIX, ts)
  {
  }

  lemma LevelIs(env: Symbols, l: nat, ts: seq<Token>)
    requires l < UNARY
    ensures var first, goal := Parse(env, l + 1, ts), Parse(env, l, ts);
            if first.None? then goal.None?
            else
              goal == Loop(env, l, first.value.0, first.value.1) &&
              (goal.Some? ==> Count(first.value.0) <= Count(goal.value.0))
  {
    var first := Parse(env, l + 1, ts);
    if first.Some? && Parse(env, l, ts).Some? { LoopGrows(env, l, first.value.0, first.value.1); }
  }

  lemma LoopEnds(env: Symbols, l: nat, t: Tree, ts: seq<Token>)
    requires l < UNARY && t.Node? && t.sibling.Nil? && !OpAt(l, ts)
    ensures Loop(env, l, t, ts) == Some((t, ts))
  {
  }

  lemma LoopStep(env: Symbols, l: nat, t: Tree, ts: seq<Token>)
    requires l < UNARY && t.Node? && t.sibling.Nil? && OpAt(l, ts)
    ensures var right, goal := Parse(env, l + 1, ts[1..]), Loop(env, l, t, ts);
            if right.None? then goal.None?
            else
              var u := Sys(SysAlu(ts[0].op), t, right.value.0);
              goal == Loop(env, l, u, right.value.1) && Count(u) == 1 + Count(t) + Count(right.value.0) &&
              (goal.Some? ==> Count(u) <= Count(goal.value.0))
  {
    var right := Parse(env, l + 1, ts[1..]);
    if right.Some? {
      var u := Sys(SysAlu(ts[0].op), t, right.value.0);
      SysCount(SysAlu(ts[0].op), t, right.value.0);
      if Loop(env, l, t, ts).Some? { LoopGrows(env, l, u, right.value.1); }
    }
  }

  lemma AssignIs(env: Symbols, ts: seq<Token>)
    ensures var left, goal := Parse(env, 0, ts), ParseAssign(env, ts);
            if left.None? then goal.None?
            else if !Starts(left.value.1, AssignTok) then goal == left
            else
              var right := ParseAssign(env, left.value.1[1..]);
              if right.None? then goal.None?
              else goal == Some((Sys(Assign, left.value.0, right.value.0), right.value.1)) &&
                   Count(goal.value.0) == 1 + Count(left.value.0) + Count(right.value.0)
  {
  }

  lemma PostEnds(env: Symbols, t: Tree, ts: seq<Token>)
    requires t.Node? && t.sibling.Nil? && !Starts(ts, IncTok) && !Starts(ts, DecTok) && !Starts(ts, LParen)
    ensures PostLoop(env, t, ts) == Some((t, ts))
  {
  }

  /** What the loop over postfix operators does next. */
  lemma PostSteps(env: Symbols, t: Tree, ts: seq<Token>)
    requires t.Node? && t.sibling.Nil?
    ensures Starts(ts, IncTok) ==> StepGrows(env, Sys(Inc, t, Nil), ts[1..], t, Nil, PostLoop(env, t, ts))
    ensures Starts(ts, DecTok) ==> StepGrows(env, Sys(Dec, t, Nil), ts[1..], t, Nil, PostLoop(env, t, ts))
    ensures Starts(ts, LParen) && Starts(ts[1..], RParen) ==>
              StepGrows(env, Sys(Func, t, Nil), ts[2..], t, Nil, PostLoop(env, t, ts))
    ensures Starts(ts, LParen) && !Starts(ts[1..], RParen) ==>
              var a := ParseArgs(env, ts[1..]);
              if a.Some? && Starts(a.value.1, RParen) then
                StepGrows(env, Sys(Func, t, a.value.0), a.value.1[1..], t, a.value.0, PostLoop(env, t, ts))
              else PostLoop(env, t, ts).None?
  {
    var goal := PostLoop(env, t, ts);
    if Starts(ts, IncTok) {
      if goal.Some? { PostGrows(env, Sys(Inc, t, Nil), ts[1..]); }
    } else if Starts(ts, DecTok) {
      if goal.Some? { PostGrows(env, Sys(Dec, t, Nil), ts[1..]); }
    } else if Starts(ts, LParen) {
      if Starts(ts[1..], RParen) {
        if goal.Some? { PostGrows(env, Sys(Func, t, Nil), ts[2..]); }
      } else if goal.Some? {
        var (a, rest) := ParseArgs(env, ts[1..]).value;
        SysCount(Func, t, a);
        PostGrows(env, Sys(Func, t, a), rest[1..]);
      }
    }
  }

  /** The new tree, of t and a and one node more, leads to the same end, and fits into what is made there. */
  ghost predicate StepGrows(env: Symbols, u: Tree, rest: seq<Token>, t: Tree, a: Tree, goal: Parsed)
    requires u.Node? && u.sibling.Nil?
  {
    PostLoop(env, u, rest) == goal && Count(u) == 1 + Count(t) + Count(a) &&
        (goal.Some? ==> Count(u) <= Count(goal.value.0))
  }

  lemma SysCount(k: NodeType, x: Tree, y: Tree)
    requires x.Node? && x.sibling.Nil?
    ensures Count(Sys(k, x, y)) == 1 + Count(x) + Count(y)
  {
  }

  lemma {:induction false} LoopGrows(env: Symbols, l: nat, t: Tree, ts: seq<Token>)
    requires l < UNARY && t.Node? && t.sibling.Nil? && Loop(env, l, t, ts).Some?
    ensures Count(Loop(env, l, t, ts).value.0) >= Count(t)
    decreases |ts|
  {
    if OpAt(l, ts) {
      var (u, rest) := Parse(env, l + 1, ts[1..]).value;
      SysCount(SysAlu(ts[0].op), t, u);
      LoopGrows(env, l, Sys(SysAlu(ts[0].op), t, u), rest);
    }
  }

  lemma {:induction false} PostGrows(env: Symbols, t: Tree, ts: seq<Token>)
    requires t.Node? && t.sibling.Nil? && PostLoop(env, t, ts).Some?
    ensures Count(PostLoop(env, t, ts).value.0) >= Count(t)
    decreases |ts|
  {
    if Starts(ts, IncTok) {
      PostGrows(env, Sys(Inc, t, Nil), ts[1..]);
    } else if Starts(ts, DecTok) {
      PostGrows(env, Sys(Dec, t, Nil), ts[1..]);
    } else if Starts(ts, LParen) {
      if Starts(ts[1..], RParen) {
        PostGrows(env, Sys(Func, t, Nil), ts[2..]);
      } else {
        var (a, rest) := ParseArgs(env, ts[1..]).value;
        SysCount(Func, t, a);
        PostGrows(env, Sys(Func, t, a), rest[1..]);
      }
    }
  }

  /** struct finsh_token: the position on the line and the one-token replay. */
  class Scanner {
    const toks: seq<Token>             // what token_run will find on the line
    var pos: nat
    var replay: bool
    var current: Token                 // current_token

    ghost predicate Valid()
      reads this
    {
      NoEof(toks) && pos <= |toks| && (replay ==> Fetched())
    }

    /** The current token is the one just before the position, or the end of the line. */
    ghost predicate Fetched()
      reads this
    {
      if current.Eof? then pos == |toks| else 0 < pos <= |toks| && toks[pos - 1] == current
    }

    /** The tokens not consumed yet. */
    ghost function Rest(): seq<Token>
      requires Valid()
      reads this
    {
      if replay && !current.Eof? then toks[pos - 1..] else toks[pos..]
    }

    /** The token t was just read: it is the first of those ahead, or there are none. */
    ghost predicate Looking(t: Token)
      requires Valid()
      reads this
    {
      && !replay && Fetched() && t == current
      && (if t == Eof then Ahead() == [] else Starts(Ahead(), t) && Rest() == Ahead()[1..])
      && |Rest()| <= |Ahead()|
    }

    /** What they will be if the token just read is put back. */
    ghost function Ahead(): seq<Token>
      requires Valid() && Fetched()
      reads this
    {
      if current.Eof? then [] else toks[pos - 1..]
    }

    /** finsh_token_init. */
    constructor (toks: seq<Token>)
      requires NoEof(toks)
      ensures Valid() && Rest() == toks && this.toks == toks
    {
      this.toks := toks;
      pos, replay, current := 0, false, Eof;
    }

    /** finsh_token_token. */
    method NextToken() returns (t: Token)
      requires Valid()
      modifies this
      ensures Valid() && Looking(t) && Ahead() == old(Rest())
    {
      if replay {
        replay := false;
        assert !current.Eof? ==> toks[pos - 1..][0] == current;
      } else if pos < |toks| {
        current := toks[pos];
        pos := pos + 1;
        assert toks[pos - 1..][0] == current;
      } else {
        current := Eof;
      }
      t := current;
    }

    /** finsh_token_replay. */
    method Replay()
      requires Valid() && Fetched()
      modifies this
      ensures Valid() && replay && Rest() == old(Ahead())
    {
      replay := true;
    }

    /** The token that was put back can be put back again. */
    lemma Held()
      requires Valid() && replay
      ensures Fetched() && Ahead() == Rest()
    {
    }
  }

  class Parser {
    const token: Scanner
    const env: Symbols
    const table: array<Entry>          // global_node_table
    const known: array<bool>           // node_type != FINSH_NODE_UNKNOWN
    var errno: nat
    ghost var count: nat               // the entries in use are the first ones

    ghost predicate Valid()
      reads this, known
    {
      && known.Length == table.Length && count <= table.Length
      && (forall i :: 0 <= i < table.Length ==> (known[i] <==> i < count))
    }

    /** A line to parse, and a node table that finsh_node_init has cleared. */
    constructor (token: Scanner, env: Symbols, table: array<Entry>)
      requires token.Valid()
      ensures Ready() && this.token == token && this.env == env && this.table == table && errno == OK && count == 0 &&
                fresh(known)
    {
      this.token, this.env, this.table := token, env, table;
      known := new bool[table.Length](_ => false);
      errno, count := OK, 0;
    }

    /** So far c entries are in use, as in tab. */
    ghost predicate Same(c: nat, tab: seq<Entry>)
      reads `count, table
    {
      count == c && |tab| == table.Length && forall i :: 0 <= i < c && i < table.Length ==> table[i] == tab[i]
    }

    /** The node n is the root of tree t, made of entries from c on; older entries are as in tab. */
    ghost predicate Made(n: int, t: Tree, c: nat, tab: seq<Entry>)
      reads `count, table
    {
      MadeAt(table[..], count, n, t, c, tab)
    }

    /** Two trees that are apart: the operands of a node to be made. */
    ghost predicate Pair(n1: int, x: Tree, n2: int, y: Tree, c: nat, tab: seq<Entry>)
      reads `count, table
    {
      PairAt(table[..], count, n1, x, n2, y, c, tab)
    }

    lemma MadeFacts(n: int, x: Tree, c: nat, tab: seq<Entry>)
      requires Made(n, x, c, tab)
      ensures n != NULL && count == c + Count(x) && MadeAt(table[..], count, n, x, c, tab) && Same(count, table[..])
    {
    }

    lemma OnePair(n: int, x: Tree, c: nat, tab: seq<Entry>)
      requires Made(n, x, c, tab)
      ensures Pair(n, x, NULL, Nil, c, tab)
    {
      PairOne(table[..], count, n, x, c, tab);
    }

    lemma TwoPair(n1: int, x: Tree, n2: int, y: Tree, c: nat, tab: seq<Entry>, c1: nat, tab1: seq<Entry>)
      requires MadeAt(tab1, c1, n1, x, c, tab) && Made(n2, y, c1, tab1)
      ensures Pair(n1, x, n2, y, c, tab) && Pair(n2, y, n1, x, c, tab)
    {
      PairTwo(table[..], count, n1, x, n2, y, c, tab, c1, tab1);
    }

    /** finsh_node_allocate. */
    method Allocate() returns (n: int)
      requires Valid()
      modifies known, `count
      ensures Valid()
      ensures old(count) < table.Length ==> n == old(count) && count == old(count) + 1
      ensures old(count) == table.Length ==> n == NULL && count == old(count)
    {
      var i := 0;
      while i < known.Length && known[i]
        invariant 0 <= i <= count
      {
        i := i + 1;
      }
      if i == known.Length { return NULL; }
      known[i] := true;
      count := count + 1;
      return i;
    }

    /** finsh_node_new_id, finsh_node_new_int and the like. */
    method NewAtom(k: NodeType, id: Ident, v: Word, ghost c: nat, ghost tab: seq<Entry>) returns (n: int)
      requires Valid() && (errno == OK ==> Same(c, tab))
      modifies table, known, `count, `errno
      ensures Valid() && (n == NULL || 0 <= n < count) && old(count) <= count
      ensures old(errno) != OK ==> errno != OK
      ensures old(errno) == OK ==> (errno == OK <==> old(count) < table.Length)
      ensures errno == OK ==> Made(n, Atom(k, id, v), c, tab)
    {
      n := Allocate();
      if n == NULL {
        errno := MEMORY_FULL;
        return;
      }
      table[n] := Entry(Attr(k, Void, false, id, v), NULL, NULL);
    }

    /** make_sys_node. */
    method MakeSysNode(k: NodeType, n1: int, n2: int, ghost x: Tree, ghost y: Tree, ghost c: nat,
                       ghost tab: seq<Entry>) returns (n: int)
      requires Valid() && (n1 == NULL || 0 <= n1 < count)
      requires errno == OK ==> x.Node? && x.sibling.Nil? && Pair(n1, x, n2, y, c, tab)
      modifies table, known, `count, `errno
      ensures Valid() && (n == NULL || 0 <= n < count) && old(count) <= count
      ensures old(errno) != OK ==> errno != OK
      ensures old(errno) == OK ==> (errno == OK <==> old(count) < table.Length)
      ensures errno == OK ==> x.Node? && Made(n, Sys(k, x, y), c, tab)
    {
      hide Holds, Foot;
      ghost var was := table[..];
      n := Allocate();
      if n1 != NULL && n != NULL {
        table[n] := Entry(Attr(k, Void, false, NoIdent, 0), NULL, n1);
        table[n1] := table[n1].(sibling := n2);
        if errno == OK {
          Split(was, n1, x);
          SysMade(was, table[..], k, n1, x, n2, y, n, old(count));
          SysCount(k, x, y);
        }
      } else {
        errno := NULL_NODE;
      }
    }

    // ---- Recursive descent ----
    //
    // Each method returns the root of what it read.  If no error is set afterwards, the tokens were those
    // of the grammar and the entries hold its tree; and an error is set only if the grammar has no
    // reading or the table is too small.

    /** There is a reading, and the table has room for it. */
    ghost predicate Room(r: Parsed, c: nat) { r.Some? && c + Count(r.value.0) <= table.Length }

    ghost predicate Done(r: Parsed, n: int, c: nat, tab: seq<Entry>)
      requires token.Valid()
      reads `count, token, table
    {
      r.Some? && token.Rest() == r.value.1 && Made(n, r.value.0, c, tab)
    }

    ghost predicate Ready()
      reads this, token, known
    {
      Valid() && token.Valid()
    }

    /** proc_primary_expr. */
    method ProcPrimary(ghost c: nat, ghost tab: seq<Entry>) returns (n: int)
      requires Ready() && c <= count && (errno == OK ==> Same(c, tab))
      modifies this, token, table, known
      ensures Ready() && (n == NULL || 0 <= n < count) && c <= count && Less(token.Rest(), old(token.Rest()))
      ensures old(errno) != OK ==> errno != OK
      ensures errno == OK ==> Done(Primary(env, old(token.Rest())), n, c, tab)
      ensures old(errno) == OK && Room(Primary(env, old(token.Rest())), c) ==> errno == OK
      decreases |token.Rest()|, 2
    {
      hide Made, NoEof, ParseAssign, Scanner.Rest, Scanner.Fetched, Scanner.Ahead;
      var t := token.NextToken();
      if t.Name? {
        token.Replay();
        t := token.NextToken();
        if t.s in env {
          n := NewAtom(Id, env[t.s], 0, c, tab);
        } else {
          errno := UNKNOWN_SYMBOL;
          n := NULL;
        }
      } else if t == LParen {
        n := ProcAssign(c, tab);
        t := token.NextToken();
        if t != RParen {
          errno := INVALID_TOKEN;
          token.Replay();
        }
      } else if t.Value? {
        n := NewAtom(t.kind, NoIdent, t.v, c, tab);
      } else {
        errno := INVALID_TOKEN;
        n := NULL;
      }
    }

    /** proc_postfix_expr. */
    method ProcPostfix(ghost c: nat, ghost tab: seq<Entry>) returns (n: int)
      requires Ready() && c <= count && (errno == OK ==> Same(c, tab))
      modifies this, token, table, known
      ensures Ready() && (n == NULL || 0 <= n < count) && c <= count && Less(token.Rest(), old(token.Rest()))
      ensures token.replay && !Starts(token.Rest(), LParen)
      ensures old(errno) != OK ==> errno != OK
      ensures errno == OK ==> Done(Parse(env, POSTFIX, old(token.Rest())), n, c, tab)
      ensures old(errno) == OK && Room(Parse(env, POSTFIX, old(token.Rest())), c) ==> errno == OK
      decreases |token.Rest()|, 3
    {
      hide Made, NoEof, Parse, ParseArgs, PostLoop, Primary, Scanner.Rest, Scanner.Fetched, Scanner.Ahead;
      ghost var goal, first := Parse(env, POSTFIX, token.Rest()), Primary(env, token.Rest());
      PostfixIs(env, token.Rest());
      n := ProcPrimary(c, tab);
      ghost var x := if first.Some? then first.value.0 else Nil;
      var t := token.NextToken();
      while t == IncTok || t == DecTok || t == LParen
        invariant Ready() && token.Looking(t)
        invariant (n == NULL || 0 <= n < count) && c <= count && Less(token.Ahead(), old(token.Rest()))
        invariant old(errno) != OK ==> errno != OK
        invariant errno == OK ==>
                  x.Node? && x.sibling.Nil? && Made(n, x, c, tab) && PostLoop(env, x, token.Ahead()) == goal
        invariant old(errno) == OK && Room(goal, c) ==> errno == OK
        decreases |token.Ahead()|
      {
        n, x := PostfixStep(t, n, x, c, tab, goal);
        t := token.NextToken();
      }
      token.Replay();
      if errno == OK { PostEnds(env, x, token.Rest()); }
    }

    /** One postfix operator or call: the body of the loop above. */
    method PostfixStep(t: Token, n0: int, ghost x0: Tree, ghost c: nat, ghost tab: seq<Entry>, ghost goal: Parsed)
      returns (n: int, ghost x: Tree)
      requires Ready() && token.Looking(t) && (t == IncTok || t == DecTok || t == LParen)
      requires (n0 == NULL || 0 <= n0 < count) && c <= count
      requires errno == OK ==>
                x0.Node? && x0.sibling.Nil? && Made(n0, x0, c, tab) && PostLoop(env, x0, token.Ahead()) == goal
      modifies this, token, table, known
      ensures Ready() && (n == NULL || 0 <= n < count) && c <= count && |token.Rest()| <= |old(token.Rest())|
      ensures old(errno) != OK ==> errno != OK
      ensures errno == OK ==> x.Node? && x.sibling.Nil? && Made(n, x, c, tab) && PostLoop(env, x, token.Rest()) == goal
      ensures old(errno) == OK && Room(goal, c) ==> errno == OK
      decreases |token.Rest()|, 20
    {
      hide Made, Pair, MadeAt, NoEof, Parse, ParseArgs, PostLoop, Scanner.Rest, Scanner.Fetched, Scanner.Ahead;
      x := x0;
      if errno == OK {
        PostSteps(env, x0, token.Ahead());
        MadeFacts(n0, x0, c, tab);
      }
      if t == LParen {
        n, x := CallStep(n0, x0, c, tab, goal);
      } else {
        if errno == OK {
          OnePair(n0, x0, c, tab);
          x := Sys(if t == IncTok then Inc else Dec, x0, Nil);
        }
        n := MakeSysNode(if t == IncTok then Inc else Dec, n0, NULL, x0, Nil, c, tab);
      }
    }

    /** What a call at the tokens ts makes of the tree x. */
    ghost predicate CallGoal(x: Tree, ts: seq<Token>, goal: Parsed)
      requires x.Node? && x.sibling.Nil?
    {
      if Starts(ts, RParen) then
        StepGrows(env, Sys(Func, x, Nil), ts[1..], x, Nil, goal)
      else
        var a := ParseArgs(env, ts);
        if a.Some? &&
            Starts(a.value.1, RParen) then StepGrows(env, Sys(Func, x, a.value.0), a.value.1[1..], x, a.value.0, goal)
        else goal.None?
    }

    /** A call, after its opening parenthesis. */
    method CallStep(n0: int, ghost x0: Tree, ghost c: nat, ghost tab: seq<Entry>, ghost goal: Parsed)
      returns (n: int, ghost x: Tree)
      requires Ready() && (n0 == NULL || 0 <= n0 < count) && c <= count
      requires errno == OK ==> x0.Node? && x0.sibling.Nil? && Made(n0, x0, c, tab) && CallGoal(x0, token.Rest(), goal)
      modifies this, token, table, known
      ensures Ready() && (n == NULL || 0 <= n < count) && c <= count && |token.Rest()| <= |old(token.Rest())|
      ensures old(errno) != OK ==> errno != OK
      ensures errno == OK ==> x.Node? && x.sibling.Nil? && Made(n, x, c, tab) && PostLoop(env, x, token.Rest()) == goal
      ensures old(errno) == OK && Room(goal, c) ==> errno == OK
      decreases |token.Rest()|, 19
    {
      hide Made, Pair, MadeAt, NoEof, Parse, ParseArgs, PostLoop, Scanner.Rest, Scanner.Fetched, Scanner.Ahead;
      if errno == OK { MadeFacts(n0, x0, c, tab); }
      x := x0;
      ghost var y := Nil;
      var params := NULL;
      var next := token.NextToken();
      if next != RParen {
        token.Replay();
        ghost var c1, tab1, args := count, table[..], ParseArgs(env, token.Rest());
        params := ProcParams(c1, tab1);
        next := token.NextToken();
        if next != RParen {
          errno := INVALID_TOKEN;
          token.Replay();
        }
        if errno == OK {
          y := args.value.0;
          MadeFacts(params, y, c1, tab1);
          TwoPair(n0, x0, params, y, c, tab, c1, tab1);
        }
      } else if errno == OK {
        OnePair(n0, x0, c, tab);
      }
      if errno == OK { x := Sys(Func, x0, y); }
      n := MakeSysNode(Func, n0, params, x0, y, c, tab);
    }

    /** proc_cast_expr.  An opening parenthesis is taken for a cast, and without a type that is an error:
        there are no parenthesised operands. */
    method ProcCast(ghost c: nat, ghost tab: seq<Entry>) returns (n: int)
      requires Ready() && c <= count && (errno == OK ==> Same(c, tab))
      modifies this, token, table, known
      ensures Ready() && (n == NULL || 0 <= n < count) && c <= count && Less(token.Rest(), old(token.Rest()))
      ensures token.replay && !Starts(token.Rest(), LParen)
      ensures old(errno) != OK ==> errno != OK
      ensures errno == OK ==> Done(Parse(env, UNARY, old(token.Rest())), n, c, tab)
      ensures old(errno) == OK && Room(Parse(env, UNARY, old(token.Rest())), c) ==> errno == OK
      decreases |token.Rest()|, 5
    {
      hide Made, NoEof, Parse, Scanner.Rest, Scanner.Fetched, Scanner.Ahead;
      UnaryIs(env, token.Rest());
      var t := token.NextToken();
      if t == LParen {
        ProcNoType();
        t := token.NextToken();
        if t != RParen {
          errno := INVALID_TOKEN;
          token.Replay();
        }
        var cast := ProcCast(c, tab);
        if cast != NULL {
          table[cast] := table[cast].(a := table[cast].a.(dtype := Void));
          return cast;
        }
        token.Held();
      }
      token.Replay();
      n := ProcUnary(c, tab);
    }

    /** proc_type, of a token that is not the name of a type. */
    method ProcNoType()
      requires Ready()
      modifies this`errno, token
      ensures Ready() && errno != OK && |token.Rest()| <= |old(token.Rest())|
    {
      hide NoEof, Scanner.Rest, Scanner.Fetched, Scanner.Ahead;
      var t := token.NextToken();
      token.Replay();
      errno := UNKNOWN_TYPE;
    }

    /** proc_unary_expr. */
    method ProcUnary(ghost c: nat, ghost tab: seq<Entry>) returns (n: int)
      requires Ready() && !Starts(token.Rest(), LParen) && c <= count && (errno == OK ==> Same(c, tab))
      modifies this, token, table, known
      ensures Ready() && (n == NULL || 0 <= n < count) && c <= count && Less(token.Rest(), old(token.Rest()))
      ensures token.replay && !Starts(token.Rest(), LParen)
      ensures old(errno) != OK ==> errno != OK
      ensures errno == OK ==> Done(Parse(env, UNARY, old(token.Rest())), n, c, tab)
      ensures old(errno) == OK && Room(Parse(env, UNARY, old(token.Rest())), c) ==> errno == OK
      decreases |token.Rest()|, 4
    {
      hide Made, Pair, MadeAt, NoEof, Parse, Scanner.Rest, Scanner.Fetched, Scanner.Ahead;
      UnaryIs(env, token.Rest());
      var t := token.NextToken();
      if t == Operator(Add) {
        n := ProcCast(c, tab);
      } else if t == Operator(Sub) {
        ghost var inner := Parse(env, UNARY, token.Rest());
        var cast := ProcCast(c, tab);
        n := Negate(cast, if inner.Some? then inner.value.0 else Nil, c, tab);
      } else if Prefix(t).Some? {
        ghost var inner := Parse(env, UNARY, token.Rest());
        var cast := ProcCast(c, tab);
        ghost var x := if inner.Some? then inner.value.0 else Nil;
        if errno == OK {
          MadeFacts(cast, x, c, tab);
          OnePair(cast, x, c, tab);
        }
        n := MakeSysNode(Prefix(t).value, cast, NULL, x, Nil, c, tab);
      } else {
        token.Replay();
        n := ProcPostfix(c, tab);
      }
    }

    /** Unary minus: zero minus the operand. */
    method Negate(cast: int, ghost x: Tree, ghost c: nat, ghost tab: seq<Entry>) returns (n: int)
      requires Valid() && (cast == NULL || 0 <= cast < count) && c <= count &&
                (errno == OK ==> x.Node? && x.sibling.Nil? && Made(cast, x, c, tab))
      modifies table, known, `count, `errno
      ensures Valid() && (n == NULL || 0 <= n < count) && c <= count
      ensures old(errno) != OK ==> errno != OK
      ensures errno == OK ==>
                x.Node? && x.sibling.Nil? && Made(n, Sys(SysAlu(Sub), Atom(ValueLong, NoIdent, 0), x), c, tab)
      ensures old(errno) == OK && c + 2 + Count(x) <= table.Length ==> errno == OK
    {
      hide Made, Pair, MadeAt;
      ghost var c1, tab1 := count, table[..];
      if errno == OK { MadeFacts(cast, x, c, tab); }
      var zero := NewAtom(ValueLong, NoIdent, 0, c1, tab1);
      if errno == OK {
        MadeFacts(zero, Atom(ValueLong, NoIdent, 0), c1, tab1);
        TwoPair(cast, x, zero, Atom(ValueLong, NoIdent, 0), c, tab, c1, tab1);
      }
      n := MakeSysNode(SysAlu(Sub), zero, cast, Atom(ValueLong, NoIdent, 0), x, c, tab);
    }

    /** proc_inclusive_or_expr (level 0) to proc_multiplicative_expr (level 5), which have this form in common. */
    method ProcLevel(l: nat, ghost c: nat, ghost tab: seq<Entry>) returns (n: int)
      requires l <= UNARY && Ready() && c <= count && (errno == OK ==> Same(c, tab))
      modifies this, token, table, known
      ensures Ready() && (n == NULL || 0 <= n < count) && c <= count && Less(token.Rest(), old(token.Rest()))
      ensures token.replay
      ensures old(errno) != OK ==> errno != OK
      ensures errno == OK ==> Done(Parse(env, l, old(token.Rest())), n, c, tab)
      ensures old(errno) == OK && Room(Parse(env, l, old(token.Rest())), c) ==> errno == OK
      decreases |token.Rest()|, 6 + UNARY - l
    {
      hide Made, NoEof, Parse, Loop, Scanner.Rest, Scanner.Fetched, Scanner.Ahead;
      if l == UNARY {
        n := ProcCast(c, tab);
        return;
      }
      ghost var goal, first := Parse(env, l, token.Rest()), Parse(env, l + 1, token.Rest());
      LevelIs(env, l, token.Rest());
      n := ProcLevel(l + 1, c, tab);
      ghost var x := if first.Some? then first.value.0 else Nil;
      var t := token.NextToken();
      while t.Operator? && Level(t.op) == l
        invariant Ready() && token.Looking(t)
        invariant (n == NULL || 0 <= n < count) && c <= count && Less(token.Ahead(), old(token.Rest()))
        invariant old(errno) != OK ==> errno != OK
        invariant errno == OK ==>
                  x.Node? && x.sibling.Nil? && Made(n, x, c, tab) && Loop(env, l, x, token.Ahead()) == goal
        invariant old(errno) == OK && Room(goal, c) ==> errno == OK
        decreases |token.Ahead()|
      {
        n, x := LevelStep(l, t.op, n, x, c, tab, goal);
        t := token.NextToken();
      }
      token.Replay();
      if errno == OK { LoopEnds(env, l, x, token.Rest()); }
    }

    /** The operand after an operator of level l: the body of the loop above. */
    method LevelStep(l: nat, op: AluOp, n0: int, ghost x0: Tree, ghost c: nat, ghost tab: seq<Entry>,
                     ghost goal: Parsed)
      returns (n: int, ghost x: Tree)
      requires l < UNARY && Ready() && token.Looking(Operator(op)) && Level(op) == l &&
                (n0 == NULL || 0 <= n0 < count) && c <= count
      requires errno == OK ==>
                x0.Node? && x0.sibling.Nil? && Made(n0, x0, c, tab) && Loop(env, l, x0, token.Ahead()) == goal
      modifies this, token, table, known
      ensures Ready() && (n == NULL || 0 <= n < count) && c <= count && |token.Rest()| <= |old(token.Rest())|
      ensures old(errno) != OK ==> errno != OK
      ensures errno == OK ==> x.Node? && x.sibling.Nil? && Made(n, x, c, tab) && Loop(env, l, x, token.Rest()) == goal
      ensures old(errno) == OK && Room(goal, c) ==> errno == OK
      decreases |token.Rest()|, 20
    {
      hide Made, Pair, MadeAt, NoEof, Parse, Loop, Scanner.Rest, Scanner.Fetched, Scanner.Ahead;
      n, x := n0, x0;
      ghost var c1, tab1, right := count, table[..], Parse(env, l + 1, token.Rest());
      if errno == OK {
        MadeFacts(n0, x0, c, tab);
        LoopStep(env, l, x0, token.Ahead());
      }
      var next := ProcLevel(l + 1, c1, tab1);
      ghost var y := if right.Some? then right.value.0 else Nil;
      if errno == OK { MadeFacts(next, y, c1, tab1); }
      if next == NULL {
        errno := EXPECT_OPERATOR;
      } else {
        if errno == OK {
          TwoPair(n0, x0, next, y, c, tab, c1, tab1);
          x := Sys(SysAlu(op), x0, y);
        }
        n := MakeSysNode(SysAlu(op), n0, next, x0, y, c, tab);
      }
    }

    /** proc_assign_expr. */
    method ProcAssign(ghost c: nat, ghost tab: seq<Entry>) returns (n: int)
      requires Ready() && c <= count && (errno == OK ==> Same(c, tab))
      modifies this, token, table, known
      ensures Ready() && (n == NULL || 0 <= n < count) && c <= count && Less(token.Rest(), old(token.Rest()))
      ensures token.replay
      ensures old(errno) != OK ==> errno != OK
      ensures errno == OK ==> Done(ParseAssign(env, old(token.Rest())), n, c, tab)
      ensures old(errno) == OK && Room(ParseAssign(env, old(token.Rest())), c) ==> errno == OK
      decreases |token.Rest()|, 13
    {
      hide Made, Pair, MadeAt, NoEof, Parse, ParseAssign, Scanner.Rest, Scanner.Fetched, Scanner.Ahead;
      ghost var left := Parse(env, 0, token.Rest());
      AssignIs(env, token.Rest());
      var or := ProcLevel(0, c, tab);
      var t := token.NextToken();
      if t == AssignTok {
        ghost var c1, tab1, right := count, table[..], ParseAssign(env, token.Rest());
        ghost var x := if left.Some? then left.value.0 else Nil;
        if errno == OK { MadeFacts(or, x, c, tab); }
        var assign := ProcAssign(c1, tab1);
        ghost var y := if right.Some? then right.value.0 else Nil;
        if errno == OK {
          MadeFacts(assign, y, c1, tab1);
          TwoPair(or, x, assign, y, c, tab, c1, tab1);
        }
        n := MakeSysNode(Assign, or, assign, x, y, c, tab);
      } else {
        token.Replay();
        n := or;
      }
    }

    /** proc_param_list. */
    method ProcParams(ghost c: nat, ghost tab: seq<Entry>) returns (n: int)
      requires Ready() && c <= count && (errno == OK ==> Same(c, tab))
      modifies this, token, table, known
      ensures Ready() && (n == NULL || 0 <= n < count) && c <= count && Less(token.Rest(), old(token.Rest()))
      ensures token.replay
      ensures old(errno) != OK ==> errno != OK
      ensures errno == OK ==> Done(ParseArgs(env, old(token.Rest())), n, c, tab)
      ensures old(errno) == OK && Room(ParseArgs(env, old(token.Rest())), c) ==> errno == OK
      decreases |token.Rest()|, 14
    {
      hide Made, MadeAt, Linked, NoEof, ParseAssign, ParseArgs, ArgsLoop, Scanner.Rest, Scanner.Fetched, Scanner.Ahead;
      ghost var goal, first := ParseArgs(env, token.Rest()), ParseAssign(env, token.Rest());
      ArgsAre(env, token.Rest());
      var assign := ProcAssign(c, tab);
      if assign == NULL {
        if errno == OK { MadeFacts(assign, first.value.0, c, tab); }
        return NULL;
      }
      n := assign;
      ghost var x := if first.Some? then first.value.0 else Nil;
      if errno == OK { OneLinked(n, x, c, tab); }
      var t := token.NextToken();
      while t == Comma
        invariant Ready() && token.Looking(t)
        invariant 0 <= n < count && 0 <= assign < count && c <= count && Less(token.Ahead(), old(token.Rest()))
        invariant old(errno) != OK ==> errno != OK
        invariant errno == OK ==> x.Node? && Linked(n, x, assign, c, tab) && ArgsLoop(env, x, token.Ahead()) == goal
        invariant old(errno) == OK && Room(goal, c) ==> errno == OK
        decreases |token.Ahead()|
      {
        assign, x := NextParam(n, assign, x, c, tab, goal);
        t := token.NextToken();
      }
      token.Replay();
      if errno == OK { ArgsEnd(env, x, token.Rest()); LinkedIsMade(n, x, assign, c, tab); }
    }

    /** The chain x of entries starts at n and ends at `last`. */
    ghost predicate Linked(n: int, x: Tree, last: int, c: nat, tab: seq<Entry>)
      reads `count, table
    {
      Made(n, x, c, tab) && LastIs(table[..], n, x, last)
    }

    lemma OneLinked(n: int, x: Tree, c: nat, tab: seq<Entry>)
      requires Made(n, x, c, tab) && x.Node? && x.sibling.Nil?
      ensures Linked(n, x, n, c, tab)
    {
    }

    lemma LinkedIsMade(n: int, x: Tree, last: int, c: nat, tab: seq<Entry>)
      requires Linked(n, x, last, c, tab)
      ensures Made(n, x, c, tab) && n != NULL && count == c + Count(x) && 0 <= last < table.Length
      ensures MadeAt(table[..], count, n, x, c, tab) && LastIs(table[..], n, x, last) && Same(count, table[..])
    {
      LastInFoot(table[..], n, x, last);
    }

    /** What was read behind a comma becomes the sibling of the last parameter: the body of the loop above. */
    method NextParam(n: int, last: int, ghost x0: Tree, ghost c: nat, ghost tab: seq<Entry>, ghost goal: Parsed)
      returns (assign: int, ghost x: Tree)
      requires Ready() && token.Looking(Comma) && 0 <= n < count && 0 <= last < count && c <= count
      requires errno == OK ==> x0.Node? && Linked(n, x0, last, c, tab) && ArgsLoop(env, x0, token.Ahead()) == goal
      modifies this, token, table, known
      ensures Ready() && 0 <= n < count && 0 <= assign < count && c <= count && |token.Rest()| <= |old(token.Rest())|
      ensures old(errno) != OK ==> errno != OK
      ensures errno == OK ==> x.Node? && Linked(n, x, assign, c, tab) && ArgsLoop(env, x, token.Rest()) == goal
      ensures old(errno) == OK && Room(goal, c) ==> errno == OK
      decreases |token.Rest()|, 20
    {
      hide Made, MadeAt, Linked, NoEof, ParseAssign, ParseArgs, ArgsLoop, Scanner.Rest, Scanner.Fetched, Scanner.Ahead;
      ghost var c1, tab1, right := count, table[..], ParseAssign(env, token.Rest());
      if errno == OK {
        LinkedIsMade(n, x0, last, c, tab);
        ArgsStep(env, x0, token.Ahead());
      }
      var next := ProcAssign(c1, tab1);
      x, assign := x0, last;
      if errno == OK { MadeFacts(next, right.value.0, c1, tab1); }
      SetSibling(n, last, next, x0, if right.Some? then right.value.0 else Nil, c, tab, c1, tab1);
      if next != NULL {
        if errno == OK { x := Append(x0, right.value.0); }
        assign := next;
      } else {
        errno := EXPECT_OPERATOR;
      }
    }

    /** The tree u at entry m goes behind the chain x. */
    method SetSibling(n: int, last: int, m: int, ghost x: Tree, ghost u: Tree, ghost c: nat, ghost tab: seq<Entry>,
                      ghost c1: nat, ghost tab1: seq<Entry>)
      requires Valid() && 0 <= last < count
      requires errno == OK ==>
                u.Node? && u.sibling.Nil? && MadeAt(tab1, c1, n, x, c, tab) && LastIs(tab1, n, x, last) &&
                Made(m, u, c1, tab1)
      modifies table
      ensures Valid()
      ensures errno == OK ==> Append(x, u).Node? && Linked(n, Append(x, u), m, c, tab)
    {
      if errno == OK { ChainMade(table[..], count, n, x, last, m, u, c, tab, c1, tab1); }
      ghost var was := table[..];
      table[last] := table[last].(sibling := m);
      assert table[..] == was[last := was[last].(sibling := m)];
    }

    /** There is an expression with its semicolon, and room for it. */
    ghost predicate Closed(r: Parsed, c: nat) { Room(r, c) && Starts(r.value.1, Semicolon) }

    /** proc_expr_statement, up to its semicolon: no statement for a semicolon alone. */
    method ProcStatement(ghost c: nat, ghost tab: seq<Entry>) returns (n: int)
      requires Ready() && c <= count && (errno == OK ==> Same(c, tab))
      modifies this, token, table, known
      ensures Ready() && (n == NULL || 0 <= n < count) && c <= count && Less(token.Rest(), old(token.Rest()))
      ensures old(errno) != OK ==> errno != OK
      ensures Starts(old(token.Rest()), Semicolon) ==>
                n == NULL && errno == old(errno) && token.Rest() == old(token.Rest())[1..]
      ensures Starts(old(token.Rest()), Semicolon) && errno == OK ==> Same(c, tab)
      ensures errno == OK && !Starts(old(token.Rest()), Semicolon) ==>
                var r := ParseAssign(env, old(token.Rest()));
                r.Some? && Starts(r.value.1, Semicolon) && token.Rest() == r.value.1[1..] && Made(n, r.value.0, c, tab)
      ensures old(errno) == OK && Closed(ParseAssign(env, old(token.Rest())), c) ==> errno == OK
    {
      hide Made, NoEof, ParseAssign, Scanner.Rest, Scanner.Fetched, Scanner.Ahead;
      var t := token.NextToken();
      n := NULL;
      if t != Semicolon {
        token.Replay();
        n := ProcAssign(c, tab);
        t := token.NextToken();
        if t != Semicolon {
          errno := INVALID_TOKEN;
          token.Replay();
        }
      }
    }

    /** The statements read so far. */
    ghost predicate Program(root: int, node: int, x: Tree, c: nat, tab: seq<Entry>)
      reads `count, table
    {
      if x.Nil? then root == NULL && Same(c, tab) else root != NULL && Linked(root, x, node, c, tab)
    }

    lemma ProgramFacts(root: int, node: int, x: Tree, c: nat, tab: seq<Entry>)
      requires Program(root, node, x, c, tab)
      ensures count == c + Count(x) && Same(count, table[..]) && Holds(table[..], root, x) && (root == NULL <==> x.Nil?)
      ensures x.Node? ==>
                0 <= node < table.Length && MadeAt(table[..], count, root, x, c, tab) &&
                LastIs(table[..], root, x, node)
      ensures |tab| == table.Length && forall i :: 0 <= i < c && i < |tab| ==> tab[i] == table[..][i]
    {
      if x.Node? { LinkedIsMade(root, x, node, c, tab); }
    }

    /** Behind the last statement goes the next one, or nothing. */
    method AddStatement(root: int, node: int, stmt: int, ghost x: Tree, ghost u: Tree, ghost c: nat,
                        ghost tab: seq<Entry>, ghost c1: nat, ghost tab1: seq<Entry>)
      returns (last: int)
      requires Valid() && 0 <= node < count && (stmt == NULL || 0 <= stmt < count)
      requires errno == OK ==> MadeAt(tab1, c1, root, x, c, tab) && LastIs(tab1, root, x, node)
      requires errno == OK ==>
                if u.Nil? then stmt == NULL && Same(c1, tab1)
                else stmt != NULL && u.sibling.Nil? && Made(stmt, u, c1, tab1)
      modifies table
      ensures Valid() && 0 <= last < count && (errno == OK ==> Program(root, last, Append(x, u), c, tab))
    {
      hide Holds, Foot, Count, MadeAt, LastIs;
      if errno == OK { MadeIsNode(tab1, c1, root, x, c, tab); }
      if stmt != NULL {
        SetSibling(root, node, stmt, x, u, c, tab, c1, tab1);
        last := stmt;
      } else {
        if errno == OK { SameChain(table[..], count, root, x, node, c, tab, tab1); }
        ghost var was := table[..];
        table[node] := table[node].(sibling := stmt);
        assert errno == OK ==> table[..] == was;
        last := node;
        AppendNil(x);
      }
    }

    /** There is a reading of the line, and the table has room for its statements. */
    ghost predicate RoomAll(r: Option<Tree>, c: nat) { r.Some? && c + Count(r.value) <= table.Length }

    /** finsh_parser_run on a line of expression statements. */
    method ParserRun(ghost c: nat, ghost tab: seq<Entry>) returns (root: int)
      requires Ready() && Same(c, tab) && errno == OK
      modifies this, token, table, known
      ensures Ready()
      ensures errno == OK ==>
                var r := ParseLine(env, old(token.Rest()), false); r.Some? && Holds(table[..], root, r.value)
      ensures RoomAll(ParseLine(env, old(token.Rest()), false), c) ==> errno == OK
    {
      hide Made, MadeAt, LastIs, Holds, Linked, Program, NoEof, ParseAssign, ParseLine, LineGoal, Scanner.Rest;
      hide Scanner.Fetched, Scanner.Ahead;
      ghost var goal, x: Tree := ParseLine(env, token.Rest(), false), Nil;
      LineStarts(env, token.Rest());
      ProgramStarts(c, tab);
      root := NULL;
      var node := NULL;
      var t := token.NextToken();
      while t != Eof && t != BadTok
        invariant Ready() && token.Looking(t) && c <= count && (root == NULL || 0 <= node < count)
        invariant errno == OK ==> Program(root, node, x, c, tab) && LineGoal(env, x, token.Ahead()) == goal
        invariant RoomAll(goal, c) ==> errno == OK
        decreases |token.Ahead()|
      {
        token.Replay();
        root, node, x := LineBody(t, root, node, x, c, tab, goal);
        if root == NULL { break; }
        t := token.NextToken();
      }
      if errno == OK {
        ProgramFacts(root, node, x, c, tab);
        if root != NULL || t == Eof || t == BadTok { LineEnds(env, x, token.Ahead()); }
      }
    }

    /** One statement: the body of the loop above. */
    method LineBody(t: Token, root0: int, node0: int, ghost x0: Tree, ghost c: nat, ghost tab: seq<Entry>,
                    ghost goal: Option<Tree>)
      returns (root: int, node: int, ghost x: Tree)
      requires Ready() && Starts(token.Rest(), t) && t != BadTok && c <= count && (root0 == NULL || 0 <= node0 < count)
      requires errno == OK ==> Program(root0, node0, x0, c, tab) && LineGoal(env, x0, token.Rest()) == goal
      modifies this, token, table, known
      ensures Ready() && |token.Rest()| < |old(token.Rest())| && c <= count && (root == NULL || 0 <= node < count)
      ensures old(errno) != OK ==> errno != OK
      ensures old(errno) == OK && RoomAll(goal, c) ==> errno == OK
      ensures errno == OK ==> Program(root, node, x, c, tab)
      ensures errno == OK && root != NULL ==> LineGoal(env, x, token.Rest()) == goal
      ensures errno == OK && root == NULL ==> goal == Some(x)
    {
      hide Made, MadeAt, LastIs, Holds, Linked, Program, NoEof, ParseAssign, ParseLine, LineGoal, Scanner.Rest;
      hide Scanner.Fetched, Scanner.Ahead;
      ghost var ts, c1, tab1, r := token.Rest(), count, table[..], ParseAssign(env, token.Rest());
      root, node := root0, node0;
      if errno == OK {
        LineStep(env, x0, ts);
        ProgramFacts(root0, node0, x0, c, tab);
      }
      var stmt := ProcStatement(c1, tab1);
      ghost var u := if t == Semicolon || r.None? then Nil else r.value.0;
      if errno == OK && t != Semicolon { MadeFacts(stmt, u, c1, tab1); }
      if root != NULL {
        node := AddStatement(root, node, stmt, x0, u, c, tab, c1, tab1);
        if stmt == NULL && !t.Name? {
          var dropped := token.NextToken();
          AppendNil(x0);
          assert |ts| > 1 ==> ts[1..][1..] == ts[2..];
        }
      } else {
        root, node := stmt, stmt;
        if errno == OK { FirstStatement(stmt, u, c, tab, tab1); }
      }
      x := Append(x0, u);
    }

    lemma ProgramStarts(c: nat, tab: seq<Entry>)
      requires Same(c, tab)
      ensures Program(NULL, NULL, Nil, c, tab)
    {
    }

    lemma FirstStatement(stmt: int, u: Tree, c: nat, tab: seq<Entry>, tab1: seq<Entry>)
      requires if u.Nil? then stmt == NULL && Same(c, tab1) else u.sibling.Nil? && Made(stmt, u, c, tab1)
      requires |tab| == |tab1| && forall i :: 0 <= i < c && i < |tab| ==> tab[i] == tab1[i]
      ensures Program(stmt, stmt, u, c, tab)
    {
      if u.Node? { OneLinked(stmt, u, c, tab); }
    }
  }

  /** What the rest of the line makes of the chain x. */
  ghost function LineGoal(env: Symbols, x: Tree, ts: seq<Token>): Option<Tree> {
    var r := ParseLine(env, ts, x.Node?);
    if r.None? then None else Some(Append(x, r.value))
  }

  lemma {:induction false} AppendNil(x: Tree)
    ensures Append(x, Nil) == x
  {
    if x.Node? { AppendNil(x.sibling); }
  }

  lemma LineStarts(env: Symbols, ts: seq<Token>)
    ensures LineGoal(env, Nil, ts) == ParseLine(env, ts, false)
  {
  }

  lemma LineEnds(env: Symbols, x: Tree, ts: seq<Token>)
    requires ts == [] || ts[0] == BadTok
    ensures LineGoal(env, x, ts) == Some(x)
  {
    AppendNil(x);
  }

  /** What the next statement makes of the line. */
  lemma LineStep(env: Symbols, x: Tree, ts: seq<Token>)
    requires ts != [] && ts[0] != BadTok
    ensures ts[0] == Semicolon && x.Nil? ==> LineGoal(env, x, ts) == Some(Nil)
    ensures ts[0] == Semicolon && x.Node? ==> NextGoal(env, x, if |ts| > 1 then ts[2..] else [], LineGoal(env, x, ts))
    ensures ts[0] != Semicolon ==> StatementGoal(env, x, ParseAssign(env, ts), LineGoal(env, x, ts))
  {
    hide Count;
    if ts[0] == Semicolon {
      AppendNil(x);
    } else {
      var r := ParseAssign(env, ts);
      if r.Some? && Starts(r.value.1, Semicolon) {
        var (u, rest) := r.value;
        var more := ParseLine(env, rest[1..], true);
        AppendCount(x, u);
        if more.Some? {
          assert Append(u, more.value) == u.(sibling := more.value);
          AppendAssoc(x, u, more.value);
          AppendCount(Append(x, u), more.value);
        }
      }
    }
  }

  /** The line goes on with the chain x and the tokens ts, to the same end. */
  ghost predicate NextGoal(env: Symbols, x: Tree, ts: seq<Token>, goal: Option<Tree>) {
    x.Node? && LineGoal(env, x, ts) == goal
  }

  ghost predicate StatementGoal(env: Symbols, x: Tree, r: Parsed, goal: Option<Tree>) {
    if r.Some? && Starts(r.value.1, Semicolon) then
      && NextGoal(env, Append(x, r.value.0), r.value.1[1..], goal)
      && (goal.Some? ==> Count(x) + Count(r.value.0) <= Count(goal.value))
    else goal.None?
  }

  lemma MadeIsNode(now: seq<Entry>, count: nat, n: int, t: Tree, c: nat, tab: seq<Entry>)
    requires MadeAt(now, count, n, t, c, tab)
    ensures t.Node? && n != NULL
  {
  }

  /** The last entry of a chain has no sibling. */
  lemma {:induction false} LastHasNone(tab: seq<Entry>, p: int, t: Tree, q: int)
    requires Holds(tab, p, t) && LastIs(tab, p, t, q)
    ensures 0 <= q < |tab| && tab[q].sibling == NULL
    decreases t
  {
    if t.sibling.Node? { LastHasNone(tab, tab[p].sibling, t.sibling, q); }
  }

  lemma SameChain(now: seq<Entry>, count: nat, n: int, x: Tree, last: int, c: nat, tab: seq<Entry>, tab1: seq<Entry>)
    requires MadeAt(tab1, count, n, x, c, tab) && LastIs(tab1, n, x, last)
    requires |now| == |tab1| && forall i :: 0 <= i < count && i < |now| ==> now[i] == tab1[i]
    ensures MadeAt(now, count, n, x, c, tab) && LastIs(now, n, x, last)
    ensures 0 <= last < |now| && now[last].sibling == NULL
  {
    hide Holds, Foot, LastIs;
    Frame(tab1, now, n, x);
    LastFrame(tab1, now, n, x, last);
    LastHasNone(now, n, x, last);
  }

  /** The loop of proc_param_list, with the chain read so far. */
  function ArgsLoop(env: Symbols, x: Tree, ts: seq<Token>): Parsed
    decreases |ts|
  {
    if Starts(ts, Comma) then
      match ParseAssign(env, ts[1..]) case None => None case Some((u, rest)) => ArgsLoop(env, Append(x, u), rest)
    else Some((x, ts))
  }

  lemma {:induction false} AppendAssoc(x: Tree, t: Tree, u: Tree)
    ensures Append(Append(x, t), u) == Append(x, Append(t, u))
  {
    if x.Node? { AppendAssoc(x.sibling, t, u); }
  }

  lemma {:induction false} ArgsPrefix(env: Symbols, x: Tree, t: Tree, ts: seq<Token>)
    ensures var r := ArgsLoop(env, t, ts);
            ArgsLoop(env, Append(x, t), ts) == if r.None? then None else Some((Append(x, r.value.0), r.value.1))
    decreases |ts|
  {
    if Starts(ts, Comma) {
      var r := ParseAssign(env, ts[1..]);
      if r.Some? {
        AppendAssoc(x, t, r.value.0);
        ArgsPrefix(env, x, Append(t, r.value.0), r.value.1);
      }
    }
  }

  lemma {:induction false} ArgsAre(env: Symbols, ts: seq<Token>)
    ensures var first, goal := ParseAssign(env, ts), ParseArgs(env, ts);
            if first.None? then goal.None?
            else
              goal == ArgsLoop(env, first.value.0, first.value.1) &&
              (goal.Some? ==> Count(first.value.0) <= Count(goal.value.0))
    decreases |ts|
  {
    var first := ParseAssign(env, ts);
    if first.Some? {
      var (t, rest) := first.value;
      if Starts(rest, Comma) {
        ArgsAre(env, rest[1..]);
        var second := ParseAssign(env, rest[1..]);
        if second.Some? { ArgsPrefix(env, t, second.value.0, second.value.1); }
        var more := ParseArgs(env, rest[1..]);
        if more.Some? { assert Append(t, more.value.0) == t.(sibling := more.value.0); AppendCount(t, more.value.0); }
      }
    }
  }

  lemma {:induction false} ArgsGrow(env: Symbols, x: Tree, ts: seq<Token>)
    requires ArgsLoop(env, x, ts).Some?
    ensures Count(x) <= Count(ArgsLoop(env, x, ts).value.0)
    decreases |ts|
  {
    if Starts(ts, Comma) {
      var (u, rest) := ParseAssign(env, ts[1..]).value;
      AppendCount(x, u);
      ArgsGrow(env, Append(x, u), rest);
    }
  }

  lemma ArgsEnd(env: Symbols, x: Tree, ts: seq<Token>)
    requires !Starts(ts, Comma)
    ensures ArgsLoop(env, x, ts) == Some((x, ts))
  {
  }

  lemma ArgsStep(env: Symbols, x: Tree, ts: seq<Token>)
    requires Starts(ts, Comma) && x.Node?
    ensures var right, goal := ParseAssign(env, ts[1..]), ArgsLoop(env, x, ts);
            if right.None? then goal.None?
            else
              var u := Append(x, right.value.0);
              u.Node? && goal == ArgsLoop(env, u, right.value.1) && Count(u) == Count(x) + Count(right.value.0) &&
              (goal.Some? ==> Count(u) <= Count(goal.value.0))
  {
    var right := ParseAssign(env, ts[1..]);
    if right.Some? {
      AppendCount(x, right.value.0);
      if ArgsLoop(env, x, ts).Some? { ArgsGrow(env, Append(x, right.value.0), right.value.1); }
    }
  }

  lemma {:induction false} LastInFoot(tab: seq<Entry>, p: int, t: Tree, q: int)
    requires Holds(tab, p, t) && LastIs(tab, p, t, q)
    ensures q in Foot(tab, p, t) && 0 <= q < |tab|
    decreases t
  {
    if t.sibling.Node? { LastInFoot(tab, tab[p].sibling, t.sibling, q); }
  }

  lemma {:induction false} LastFrame(tab: seq<Entry>, tab': seq<Entry>, p: int, t: Tree, q: int)
    requires Holds(tab, p, t) && LastIs(tab, p, t, q) && |tab'| == |tab|
    requires forall i :: i in Foot(tab, p, t) && 0 <= i < |tab| ==> tab'[i] == tab[i]
    ensures LastIs(tab', p, t, q)
    decreases t
  {
    assert p in Foot(tab, p, t);
    if t.sibling.Node? { LastFrame(tab, tab', tab[p].sibling, t.sibling, q); }
  }

  lemma ChainMade(now: seq<Entry>, count: nat, n: int, x: Tree, last: int, m: int, u: Tree, c: nat, tab: seq<Entry>,
                  c1: nat, tab1: seq<Entry>)
    requires u.Node? && u.sibling.Nil? && MadeAt(tab1, c1, n, x, c, tab) && LastIs(tab1, n, x, last) &&
              MadeAt(now, count, m, u, c1, tab1)
    ensures 0 <= last < |now| && x.Node?
    ensures var then_ := now[last := now[last].(sibling := m)];
            MadeAt(then_, count, n, Append(x, u), c, tab) && LastIs(then_, n, Append(x, u), m)
  {
    hide Holds, Foot, LastIs;
    LastInFoot(tab1, n, x, last);
    Frame(tab1, now, n, x);
    LastFrame(tab1, now, n, x, last);
    forall i | i in Foot(now, n, x) ensures i !in Foot(now, m, u) {}
    AppendHolds(now, n, x, last, m, u);
    AppendCount(x, u);
    Chained(tab1, n, x, last);
  }

  lemma Chained(tab: seq<Entry>, p: int, t: Tree, q: int)
    requires LastIs(tab, p, t, q)
    ensures t.Node?
  {
  }

  /** In the table `now` with `count` entries in use, n is the root of tree t, made of entries from c on;
      older entries are as in tab. */
  ghost predicate MadeAt(now: seq<Entry>, count: nat, n: int, t: Tree, c: nat, tab: seq<Entry>) {
    && n != NULL && Holds(now, n, t) && (forall i :: i in Foot(now, n, t) ==> c <= i < count)
    && count == c + Count(t) && count <= |now| == |tab| && forall i :: 0 <= i < c && i < |tab| ==> now[i] == tab[i]
  }

  /** Two trees that are apart: the operands of a node to be made. */
  ghost predicate PairAt(now: seq<Entry>, count: nat, n1: int, x: Tree, n2: int, y: Tree, c: nat, tab: seq<Entry>) {
    && n1 != NULL && Holds(now, n1, x) && Holds(now, n2, y) && Foot(now, n1, x) !! Foot(now, n2, y)
    && (forall i :: i in Foot(now, n1, x) || i in Foot(now, n2, y) ==> c <= i < count)
    && count == c + Count(x) + Count(y) && count <= |now| == |tab| && forall i ::
        0 <= i < c && i < |tab| ==> now[i] == tab[i]
  }

  lemma PairOne(now: seq<Entry>, count: nat, n: int, x: Tree, c: nat, tab: seq<Entry>)
    requires MadeAt(now, count, n, x, c, tab)
    ensures PairAt(now, count, n, x, NULL, Nil, c, tab)
  {
    EmptyTree(now, NULL);
  }

  /** First x was made, then y. */
  lemma PairTwo(now: seq<Entry>, count: nat, n1: int, x: Tree, n2: int, y: Tree, c: nat, tab: seq<Entry>, c1: nat,
                tab1: seq<Entry>)
    requires MadeAt(tab1, c1, n1, x, c, tab) && MadeAt(now, count, n2, y, c1, tab1)
    ensures PairAt(now, count, n1, x, n2, y, c, tab) && PairAt(now, count, n2, y, n1, x, c, tab)
  {
    hide Holds, Foot, Count;
    Frame(tab1, now, n1, x);
    assert forall i :: i in Foot(now, n1, x) ==> c <= i < c1;
    assert forall i :: i in Foot(now, n2, y) ==> c1 <= i < count;
    forall i | i in Foot(now, n1, x) ensures i !in Foot(now, n2, y) {}
  }

  lemma SysMade(tab: seq<Entry>, tab': seq<Entry>, k: NodeType, n1: int, x: Tree, n2: int, y: Tree, n: int, count: nat)
    requires x.Node? && x.sibling.Nil? && Holds(tab, n1, x) && Holds(tab, n2, y) && Foot(tab, n1, x) !! Foot(tab, n2, y)
    requires n == count < |tab| && forall i :: i in Foot(tab, n1, x) || i in Foot(tab, n2, y) ==> 0 <= i < count
    requires 0 <= n1 < count &&
              tab' == tab[n := Entry(Attr(k, Void, false, NoIdent, 0), NULL, n1)][n1 := tab[n1].(sibling := n2)]
    ensures Holds(tab', n, Sys(k, x, y)) && Foot(tab', n, Sys(k, x, y)) == {n} + Foot(tab, n1, x) + Foot(tab, n2, y)
  {
    var mid := tab[n := Entry(Attr(k, Void, false, NoIdent, 0), NULL, n1)];
    FrameUpdate(tab, n, mid[n], n1, x);
    FrameUpdate(tab, n, mid[n], n2, y);
    FrameUpdate(mid, n1, tab'[n1], n2, y);
    FrameUpdate(mid, n1, tab'[n1], mid[n1].child, x.child);
  }
}
