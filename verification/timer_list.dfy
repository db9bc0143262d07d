/** The skip list of timer.c: one circular list per level, each holding some of the timers of the list
    below it, keyed by a 32-bit tick that wraps around. */
module TimerList {
  import opened RtList
  import opened SortedList
  import opened TimerSpec

  const HEAD := NOBODY          // the list heads in rt_timer_list
  const WRAP := 0x1_0000_0000
  const TICK_MAX := 0xFFFF_FFFF
  const EOK := 0
  const ERROR := -1

  /** A time as an rt_tick_t. */
  function Wrap(x: int): int { x % WRAP }

  /** Addition and subtraction of rt_tick_t values. */
  function Add32(a: int, b: int): int { Wrap(a + b) }
  function Sub32(a: int, b: int): int { Wrap(a - b) }

  /** Comparing ticks by their wrapped difference is comparing deadlines, if both are near. */
  lemma TickOrder(a: int, b: int, now: int)
    requires now - 1 <= a < now + HALF && now <= b < now + HALF
    ensures Sub32(Wrap(a), Wrap(b)) == 0 <==> a == b
    ensures 0 < Sub32(Wrap(a), Wrap(b)) < HALF <==> a > b
  {
    Wrapped(a, b);
    SmallMod(a - b);
  }

  /** A deadline has come exactly if the wrapped time since then is small. */
  lemma TickExpired(now: int, d: int)
    requires now - 1 <= d < now + HALF
    ensures Sub32(Wrap(now), Wrap(d)) < HALF <==> d <= now
  {
    Wrapped(now, d);
    SmallMod(now - d);
  }

  lemma Wrapped(a: int, b: int)
    ensures Sub32(Wrap(a), Wrap(b)) == (a - b) % WRAP
  {
    var k := a / WRAP - b / WRAP;
    assert a - b == a % WRAP - b % WRAP + WRAP * k;
    ModAdd(a % WRAP - b % WRAP, k);
  }

  lemma {:induction false} ModAdd(x: int, k: int)
    ensures (x + WRAP * k) % WRAP == x % WRAP
    decreases if k < 0 then -k else k
  {
    if k > 0 { ModAdd(x, k - 1); assert x + WRAP * k == x + WRAP * (k - 1) + WRAP; }
    if k < 0 { ModAdd(x, k + 1); assert x + WRAP * k == x + WRAP * (k + 1) - WRAP; }
  }

  lemma AddWraps(a: int, b: int)
    ensures Add32(Wrap(a), b) == Wrap(a + b)
  {
    ModAdd(a % WRAP + b, a / WRAP);
  }

  lemma SmallMod(x: int)
    ensures 0 <= x < WRAP ==> x % WRAP == x
    ensures -WRAP <= x < 0 ==> x % WRAP == x + WRAP
  {
  }

  // ---- Rows ----

  /** The timers of s that reach level n. */
  function Tall(s: seq<int>, height: map<int, int>, n: int): seq<int> {
    if s == [] then []
    else if At(height, s[0]) >= n then [s[0]] + Tall(s[1..], height, n)
    else Tall(s[1..], height, n)
  }

  lemma {:induction false} TallElements(s: seq<int>, height: map<int, int>, n: int)
    ensures forall x :: x in Tall(s, height, n) <==> x in s && At(height, x) >= n
  {
    if s != [] { TallElements(s[1..], height, n); assert forall x :: x in s <==> x == s[0] || x in s[1..]; }
  }

  lemma {:induction false} TallFrame(s: seq<int>, height: map<int, int>, other: map<int, int>, n: int)
    requires forall x :: x in s ==> At(height, x) == At(other, x)
    ensures Tall(s, height, n) == Tall(s, other, n)
  {
    if s != [] { TallFrame(s[1..], height, other, n); }
  }

  lemma {:induction false} TallSorted(s: seq<int>, d: map<int, int>, height: map<int, int>, n: int)
    requires Sorted(s, d) && Distinct(s)
    ensures Sorted(Tall(s, height, n), d) && Distinct(Tall(s, height, n))
  {
    hide Sorted, Distinct;
    if s == [] {
      assert Sorted([], d) && Distinct([]) by { EmptySorted(d); }
    } else {
      HeadLeast(s, d);
      HeadDistinct(s);
      TallSorted(s[1..], d, height, n);
      TallElements(s[1..], height, n);
      if At(height, s[0]) >= n { ConsOk(s[0], Tall(s[1..], height, n), d); }
    }
  }

  lemma {:induction false} TallAll(s: seq<int>, height: map<int, int>)
    requires forall x :: x in s ==> At(height, x) >= 1
    ensures Tall(s, height, 1) == s
  {
    if s != [] { TallAll(s[1..], height); }
  }

  /** Stable insertion commutes with taking the tall timers. */
  lemma {:induction false} TallInsert(s: seq<int>, d: map<int, int>, height: map<int, int>, n: int, x: int)
    requires Sorted(s, d)
    ensures Tall(Insert(s, d, x), height, n) ==
            if At(height, x) >= n then Insert(Tall(s, height, n), d, x) else Tall(s, height, n)
  {
    hide Sorted;
    if s != [] {
      HeadLeast(s, d);
      if At(d, s[0]) > At(d, x) {
        TallElements(s, height, n);
        var r := Tall(s, height, n);
        assert r != [] ==> r[0] in s;
      } else {
        TallInsert(s[1..], d, height, n, x);
      }
    }
  }

  lemma {:induction false} TallDel(s: seq<int>, height: map<int, int>, n: int, x: int)
    ensures Tall(Del(s, x), height, n) == Del(Tall(s, height, n), x)
  {
    if s != [] {
      TallDel(s[1..], height, n, x);
      if s[0] == x && At(height, x) < n {
        TallElements(s[1..], height, n);
        DelAbsent(Tall(s[1..], height, n), x);
      }
    }
  }

  /** Every row is a subsequence of the row below it. */
  lemma {:induction false} RowsNested(s: seq<int>, height: map<int, int>, n: int)
    ensures Subsequence(Tall(s, height, n + 1), Tall(s, height, n))
  {
    if s != [] {
      RowsNested(s[1..], height, n);
      var a, b := Tall(s, height, n + 1), Tall(s, height, n);
      if At(height, s[0]) >= n { assert b[1..] == Tall(s[1..], height, n); }
      if At(height, s[0]) > n { assert a[1..] == Tall(s[1..], height, n + 1); }
    }
  }

  ghost predicate Lone(l: Links, t: int) { t in l.next && t in l.prev && l.next[t] == t && l.prev[t] == t }

  /** A row: the circular list of s, and every other timer in a list of its own. */
  ghost predicate Row(l: Links, s: seq<int>, ids: set<int>) {
    Ring(l, [HEAD] + s) && forall t :: t in ids && t !in s ==> Lone(l, t)
  }

  lemma RowInsert(l: Links, s: seq<int>, ids: set<int>, t: int, k: nat)
    requires Row(l, s, ids) && t !in s && t != HEAD && HEAD !in ids && k <= |s|
    ensures var at := ([HEAD] + s)[k]; at in l.next && Row(InsertAfter(l, at, t), With(s, k, t), ids)
  {
    var ring := [HEAD] + s;
    RingInsertAfter(l, ring, k, t);
    RingAt(l, ring, k);
    assert With(ring, k + 1, t) == [HEAD] + With(s, k, t);
    var m, at := InsertAfter(l, ring[k], t), l.next[ring[k]];
    assert ring[k] in ring && at in ring;
    forall u | u in ids && u !in With(s, k, t) ensures Lone(m, u) {
      WithElements(s, k, t);
      assert u != t && u !in s && u !in ring;
    }
  }

  /** Removing a timer from a row, whether it is in it or not. */
  lemma RowRemove(l: Links, s: seq<int>, ids: set<int>, t: int)
    requires Row(l, s, ids) && t in ids && HEAD !in ids
    ensures t in l.next && t in l.prev && Row(Remove(l, t), Del(s, t), ids)
  {
    var ring := [HEAD] + s;
    if t in s {
      var k :| 0 <= k < |s| && s[k] == t;
      assert ring[k + 1] == t && Without(ring, k + 1) == [HEAD] + Without(s, k);
      RingRemove(l, ring, k + 1);
      RingAt(l, ring, k + 1);
      RingDistinct(l, s);
      DelWithout(s, k);
      WithoutElements(s, k);
      assert Node(ring, k + 2) in ring && ring[k] in ring;
      forall u | u in ids && u !in Del(s, t) && u != t ensures Lone(Remove(l, t), u) { assert u !in ring; }
    } else {
      DelAbsent(s, t);
      RemoveLone(l, t);
    }
  }

  lemma RingDistinct(l: Links, s: seq<int>)
    requires Ring(l, [HEAD] + s)
    ensures Distinct(s) && HEAD !in s
  {
    var ring := [HEAD] + s;
    assert ring[0] == HEAD && forall i :: 0 <= i < |s| ==> s[i] == ring[i + 1];
  }

  // What `& MASK` and the shift by (MASK + 1) >> 1 are for the masks 1 and 3.
  function Masked(number: nat, mask: nat): nat { if mask == 1 then number % 2 else number % 4 }
  function Shifted(number: nat, mask: nat): nat { if mask == 1 then number / 2 else number / 4 }

  /** How many levels a timer gets from a counter value, of at most n. */
  function Height(number: nat, mask: nat, n: nat): (h: nat)
    ensures 1 <= h && (n >= 1 ==> h <= n)
    decreases n
  {
    if n <= 1 || Masked(number, mask) != 0 then 1 else 1 + Height(Shifted(number, mask), mask, n - 1)
  }

  class Timers {
    const levels: nat                      // RT_TIMER_SKIP_LIST_LEVEL
    const mask: nat                        // RT_TIMER_SKIP_LIST_MASK, 1 or 3
    const script: map<int, seq<Action>>    // timeout_func and its parameter
    var rows: seq<Links>                   // rt_timer_list and the row fields of the timers, level by level
    var timeout: map<int, int>             // timeout_tick
    var delay: map<int, int>               // init_tick
    var periodic: set<int>                 // RT_TIMER_FLAG_PERIODIC
    var active: set<int>                   // RT_TIMER_FLAG_ACTIVATED
    var tick: int                          // rt_tick
    var random: nat                        // random_nr
    ghost var ids: set<int>                // the timers there are
    ghost var order: seq<int>              // the pending timers, as in the last row
    ghost var deadline: map<int, int>      // when they expire, and what time it is, without wrap-around
    ghost var now: int
    ghost var height: map<int, int>        // the levels of each pending timer

    ghost function Cfg(): Config reads `delay, `periodic { Config(delay, periodic, script) }

    ghost function Abs(): Sys reads `order, `deadline, `active { Sys(order, deadline, active) }

    /** Row i holds the pending timers of at least levels - i levels. */
    ghost function RowOf(i: int): seq<int> reads `order, `height { Tall(order, height, levels - i) }

    ghost predicate RowAt(i: int)
      requires 0 <= i < |rows|
      reads `rows, `order, `height, `ids
    {
      Row(rows[i], RowOf(i), ids)
    }

    ghost predicate Rows()
      reads `rows, `order, `height, `ids
    {
      levels == |rows| && levels > 0 && HEAD !in ids && forall i {:trigger RowAt(i)} :: 0 <= i < levels ==> RowAt(i)
    }

    /** The stored ticks are the deadlines modulo 2^32. */
    ghost predicate Ticking()
      reads `tick, `now, `order, `ids, `timeout, `deadline, `height, `random
    {
      && tick == Wrap(now) && random < WRAP
      && forall t {:trigger Pending(t)} :: t in order ==> Pending(t)
    }

    ghost predicate Pending(t: int)
      reads `ids, `timeout, `deadline, `height
    {
      t in ids && t in timeout && timeout[t] == Wrap(At(deadline, t)) && 1 <= At(height, t) <= levels
    }

    /** The users keep the rules. */
    ghost predicate Setting()
      reads `delay, `periodic, `ids
    {
      && (mask == 1 || mask == 3) && Fair(Cfg())
      && (forall t :: t in ids ==> t in delay && t in script)
      && (forall t, a :: a in ScriptOf(Cfg(), t) ==> a.id in ids)
    }

    ghost predicate Valid(busy: int)
      reads this
    {
      Rows() && Ticking() && Setting() && Ok(Abs(), now, busy) && (busy != NOBODY ==> busy in ids)
    }

    /** rt_system_timer_init, and _rt_timer_init of each timer: every node in a list of its own. */
    constructor (levels: nat, mask: nat, script: map<int, seq<Action>>, delay: map<int, int>, periodic: set<int>,
                 tick: nat)
      requires levels > 0 && (mask == 1 || mask == 3) && tick < WRAP && HEAD !in delay
      requires Fair(Config(delay, periodic, script)) && forall t :: t in delay ==> t in script
      requires forall t, a :: a in ScriptOf(Config(delay, periodic, script), t) ==> a.id in delay
      ensures Valid(NOBODY) && Between(Abs(), now) && order == [] && ids == delay.Keys && now == tick
      ensures this.levels == levels && Cfg() == Config(delay, periodic, script)
    {
      var own := map t | t in delay.Keys + {HEAD} :: t;
      this.levels, this.mask, this.script, this.delay, this.periodic := levels, mask, script, delay, periodic;
      this.tick, now, random := tick, tick, 0;
      rows := seq(levels, _ => Links(own, own));
      timeout, active, ids, order, deadline, height := map[], {}, delay.Keys, [], map[], map[];
      new;
      forall i | 0 <= i < levels ensures RowAt(i) { assert LinkedAt(rows[i], [HEAD], 0); }
    }

    /** The inner search loop of rt_timer_start: from the node `from` in row i to the place of a timer
        that expires at `expiry`, which is the time e. */
    method Walk(i: nat, from: int, expiry: int, ghost k0: nat, ghost d: map<int, int>, ghost x: int)
      returns (c: int, ghost k: nat)
      requires Rows() && Ticking() && i < levels
      requires Sorted(RowOf(i), d) && forall t :: t in RowOf(i) ==> t in order && At(d, t) == At(deadline, t)
      requires forall t :: t in order ==> Soon(deadline, now, t)
      requires now <= At(d, x) < now + HALF && expiry == Wrap(At(d, x))
      requires k0 <= |RowOf(i)| && from == ([HEAD] + RowOf(i))[k0] && (k0 > 0 ==> At(d, RowOf(i)[k0 - 1]) <= At(d, x))
      ensures k <= |RowOf(i)| && c == ([HEAD] + RowOf(i))[k]
      ensures k > 0 ==> At(d, RowOf(i)[k - 1]) <= At(d, x)
      ensures Insert(RowOf(i), d, x) == With(RowOf(i), k, x)
    {
      hide Sorted, Tall;
      ghost var s := RowOf(i);
      ghost var ring := [HEAD] + s;
      c, k := from, k0;
      assert RowAt(i);
      RingAt(rows[i], ring, 0);
      while c != rows[i].prev[HEAD]
        invariant k <= |s| && c == ring[k] && (k > 0 ==> At(d, s[k - 1]) <= At(d, x))
        invariant HEAD in rows[i].prev && rows[i].prev[HEAD] == ring[|s|]
        decreases |s| - k
      {
        RingAt(rows[i], ring, k);
        assert k < |s|;
        var p := rows[i].next[c];
        assert p == s[k] && p in s && Soon(deadline, now, p) && Pending(p);
        var diff := Sub32(timeout[p], expiry);
        TickOrder(At(d, p), At(d, x), now);
        if diff != 0 && diff < HALF {
          InsertIs(s, d, x, k);
          return;
        }
        c, k := p, k + 1;
      }
      assert ring[k] == ring[|s|];
      InsertIs(s, d, x, k);
    }

    /** The position of a member of row i in row i + 1, and that nothing before it is later. */
    lemma Below(i: nat, k: nat, d: map<int, int>, x: int) returns (j: nat)
      requires i + 1 < levels && k <= |RowOf(i)| && Sorted(RowOf(i + 1), d) &&
                (k > 0 ==> At(d, RowOf(i)[k - 1]) <= At(d, x))
      ensures j <= |RowOf(i + 1)| && ([HEAD] + RowOf(i + 1))[j] == ([HEAD] + RowOf(i))[k]
      ensures j > 0 ==> At(d, RowOf(i + 1)[j - 1]) <= At(d, x)
    {
      if k == 0 { return 0; }
      var t := RowOf(i)[k - 1];
      TallElements(order, height, levels - i);
      TallElements(order, height, levels - i - 1);
      assert t in RowOf(i) && t in RowOf(i + 1);
      var m :| 0 <= m < |RowOf(i + 1)| && RowOf(i + 1)[m] == t;
      return m + 1;
    }

    /** The search of rt_timer_start: the node to insert after, level by level, each search going on
        from where the one above it ended. */
    method Locate(expiry: int, ghost d: map<int, int>, ghost x: int) returns (heads: seq<int>, ghost places: seq<nat>)
      requires Rows() && Ticking() && Sorted(order, deadline) && Distinct(order)
      requires forall t :: t in order ==> At(d, t) == At(deadline, t) && Soon(deadline, now, t)
      requires now <= At(d, x) < now + HALF && expiry == Wrap(At(d, x))
      ensures |heads| == |places| == levels
      ensures forall i {:trigger heads[i]} ::
                0 <= i < levels ==> places[i] <= |RowOf(i)| && heads[i] == ([HEAD] + RowOf(i))[places[i]]
      ensures forall i {:trigger places[i]} :: 0 <= i < levels ==>
                places[i] <= |RowOf(i)| && Insert(RowOf(i), d, x) == With(RowOf(i), places[i], x)
    {
      hide Row, Sorted, Distinct, Insert, Soon;
      heads, places := [], [];
      var c := HEAD;
      ghost var k := 0;
      for i := 0 to levels
        invariant |heads| == |places| == i
        invariant i < levels ==>
                  0 <= k <= |RowOf(i)| && c == ([HEAD] + RowOf(i))[k] && (k > 0 ==> At(d, RowOf(i)[k - 1]) <= At(d, x))
        invariant forall j {:trigger heads[j]} ::
                  0 <= j < i ==> places[j] <= |RowOf(j)| && heads[j] == ([HEAD] + RowOf(j))[places[j]]
        invariant forall j {:trigger places[j]} :: 0 <= j < i ==>
                    places[j] <= |RowOf(j)| && Insert(RowOf(j), d, x) == With(RowOf(j), places[j], x)
      {
        RowSorted(i, d);
        c, k := Walk(i, c, expiry, k, d, x);
        heads, places := heads + [c], places + [k];
        if i + 1 < levels {
          RowSorted(i + 1, d);
          k := Below(i, k, d, x);
        }
      }
    }

    lemma RowSorted(i: int, d: map<int, int>)
      requires Sorted(order, deadline) && Distinct(order)
      requires forall t :: t in order ==> At(d, t) == At(deadline, t)
      ensures Sorted(RowOf(i), d) && forall t :: t in RowOf(i) ==> t in order && At(d, t) == At(deadline, t)
    {
      SortedFrame(order, deadline, d);
      TallSorted(order, d, height, levels - i);
      TallElements(order, height, levels - i);
    }

    /** The insertion loop of rt_timer_start: into the last row, and into those above it as long as the
        bits of the counter say so. */
    method Link(heads: seq<int>, t: int, number: nat)
      requires levels == |rows| == |heads| > 0
      requires forall i :: 0 <= i < levels ==> heads[i] in rows[i].next
      modifies `rows
      ensures |rows| == levels
      ensures forall i {:trigger rows[i]} :: 0 <= i < levels ==>
                heads[i] in old(rows)[i].next &&
                rows[i] == if levels - i <= Height(number, mask, levels) then InsertAfter(old(rows)[i], heads[i], t)
                    else old(rows)[i]
    {
      ghost var was := rows;
      rows := rows[levels - 1 := InsertAfter(rows[levels - 1], heads[levels - 1], t)];
      var row, bits := 2, number;
      while row <= levels
        invariant 2 <= row <= levels + 1 && |rows| == levels
        invariant Height(number, mask, levels) == row - 2 + Height(bits, mask, levels - row + 2)
        invariant forall i {:trigger rows[i]} :: 0 <= i < levels ==>
                    heads[i] in was[i].next && rows[i] == if levels - i < row then InsertAfter(was[i], heads[i], t)
                        else was[i]
      {
        if Masked(bits, mask) != 0 { break; }
        var i := levels - row;
        rows := rows[i := InsertAfter(rows[i], heads[i], t)];
        bits := Shifted(bits, mask);
        row := row + 1;
      }
    }

    /** What inserting a timer of h levels makes of row i. */
    lemma RowStarts(i: nat, d: map<int, int>, t: int, h: nat, at: int, k: nat)
      requires Rows() && i < levels && Sorted(order, d) && t !in order && t in ids && 1 <= h <= levels
      requires k <= |RowOf(i)| && at == ([HEAD] + RowOf(i))[k] && Insert(RowOf(i), d, t) == With(RowOf(i), k, t)
      ensures at in rows[i].next
      ensures var s := Tall(Insert(order, d, t), height[t := h], levels - i);
              Row(if levels - i <= h then InsertAfter(rows[i], at, t) else rows[i], s, ids)
    {
      assert RowAt(i);
      var g := height[t := h];
      TallElements(order, height, levels - i);
      TallFrame(order, height, g, levels - i);
      TallInsert(order, d, g, levels - i, t);
      RowInsert(rows[i], RowOf(i), ids, t, k);
    }

    /** What Locate needs to know. */
    static lemma StartFacts(c: Config, s: Sys, now: int, t: int, busy: int)
      requires Ok(s, now, busy) && Fair(c) && t != busy && t != NOBODY && t !in s.active
      ensures Insertable(s, now, t, s.deadline[t := now + At(c.delay, t)]) && t !in s.order
      ensures Ok(TimerSpec.StartTimer(c, s, now, t), now, busy)
      ensures var d := s.deadline[t := now + At(c.delay, t)];
              TimerSpec.StartTimer(c, s, now, t) == Sys(Insert(s.order, d, t), d, s.active + {t})
    {
      hide Insert;
      StartOk(c, s, now, t, busy);
      SortedFrame(s.order, s.deadline, s.deadline[t := now + At(c.delay, t)]);
    }

    /** Timer t can be inserted, with the deadlines d. */
    static ghost predicate Insertable(s: Sys, now: int, t: int, d: map<int, int>) {
      && t !in s.order && Sorted(s.order, d) && Sorted(s.order, s.deadline) && Distinct(s.order)
      && (forall u :: u in s.order ==> At(d, u) == At(s.deadline, u) && Soon(s.deadline, now, u))
      && now <= At(d, t) < now + HALF
    }

    static lemma StopFacts(s: Sys, now: int, t: int, busy: int)
      requires Ok(s, now, busy)
      ensures Ok(TimerSpec.StopTimer(s, t), now, busy) && forall u :: u in Del(s.order, t) ==> u in s.order
    {
      StopOk(s, now, t, busy);
      DelOk(s.order, s.deadline, t);
    }

    /** rt_timer_start. */
    method StartTimer(t: int, ghost busy: int) returns (r: int)
      requires Valid(busy) && t in ids && (t != busy || t in active)
      modifies `rows, `timeout, `active, `random, `order, `deadline, `height
      ensures Valid(busy)
      ensures r == if t in old(active) then ERROR else EOK
      ensures Abs() == TimerSpec.StartTimer(Cfg(), old(Abs()), now, t)
    {
      if t in active { return ERROR; }
      Activate(t, busy);
      return EOK;
    }

    lemma Ready(t: int)
      requires Rows() && Setting() && t in ids
      ensures t in delay && t != NOBODY && Fair(Cfg())
    {
    }

    method Activate(t: int, ghost busy: int)
      requires Valid(busy) && t in ids && t != busy && t !in active
      modifies `rows, `timeout, `active, `random, `order, `deadline, `height
      ensures Valid(busy) && Abs() == TimerSpec.StartTimer(Cfg(), old(Abs()), now, t)
    {
      hide Insert, Ok, Fair, Rows, Ticking, Setting, Insertable, TimerSpec.StartTimer;
      Ready(t);
      ghost var c, s := Cfg(), Abs();
      ghost var d := s.deadline[t := now + At(c.delay, t)];
      StartFacts(c, s, now, t, busy);
      Enter(t, d);
      active := active + {t};
      assert Abs() == TimerSpec.StartTimer(c, s, now, t);
    }

    /** Set the tick of timer t, and link it in. */
    method Enter(t: int, ghost d: map<int, int>)
      requires Rows() && Ticking() && t in ids && t in delay && t !in order
      requires Insertable(Abs(), now, t, d) && At(d, t) == now + delay[t]
      modifies `rows, `timeout, `random, `order, `deadline, `height
      ensures Rows() && Ticking() && order == Insert(old(order), d, t) && deadline == d
    {
      hide Insert, Rows, Wrap, Add32, Sorted, Distinct, Soon;
      AddWraps(now, delay[t]);
      timeout := timeout[t := Add32(tick, delay[t])];
      forall u | u in order ensures Pending(u) { assert old(Pending(u)); }
      label Placing:
      assert forall u :: u in order ==> At(d, u) == At(deadline, u);
      Place(t, d);
      InsertElements(old(order), d, t);
      forall u | u in order ensures Pending(u) { assert u == t || old@Placing(Pending(u)); }
    }

    /** The critical section of rt_timer_start: find the places for timer t, and link it in. */
    method Place(t: int, ghost d: map<int, int>)
      requires Rows() && Ticking() && t in ids && Insertable(Abs(), now, t, d)
      requires t in timeout && timeout[t] == Wrap(At(d, t))
      modifies `rows, `random, `order, `deadline, `height
      ensures Rows() && order == Insert(old(order), d, t) && deadline == d && random < WRAP
      ensures height == old(height)[t := At(height, t)] && 1 <= At(height, t) <= levels
    {
      var heads;
      ghost var places;
      heads, places := Locate(timeout[t], d, t);
      random := Add32(random, 1);
      hide Row, Insert, Sorted, Tall;
      ghost var h := Height(random, mask, levels);
      forall i | 0 <= i < levels
        ensures heads[i] in rows[i].next
        ensures Row(if levels - i <= h then InsertAfter(rows[i], heads[i], t) else rows[i],
                    Tall(Insert(order, d, t), height[t := h], levels - i), ids)
      {
        assert places[i] <= |RowOf(i)|;
        RowStarts(i, d, t, h, heads[i], places[i]);
      }
      Link(heads, t, random);
      order, deadline, height := Insert(order, d, t), d, height[t := h];
      forall i | 0 <= i < levels ensures RowAt(i) { assert heads[i] in old(rows)[i].next; }
    }

    /** _rt_timer_remove. */
    method Remove(t: int)
      requires Rows() && t in ids
      modifies `rows, `order
      ensures Rows() && order == Del(old(order), t)
    {
      hide Ring, Row;
      ghost var s, was := order, rows;
      for i := 0 to levels
        invariant |rows| == levels && order == s && height == old(height) && ids == old(ids)
        invariant forall j :: i <= j < levels ==> rows[j] == was[j]
        invariant forall j :: 0 <= j < i ==> Row(rows[j], Tall(Del(s, t), height, levels - j), ids)
      {
        assert old(RowAt(i));
        RowRemove(rows[i], RowOf(i), ids, t);
        TallDel(s, height, levels - i, t);
        rows := rows[i := RtList.Remove(rows[i], t)];
      }
      order := Del(s, t);
      assert forall i {:trigger RowAt(i)} :: 0 <= i < levels ==> RowAt(i);
    }

    /** rt_timer_stop. */
    method StopTimer(t: int, ghost busy: int) returns (r: int)
      requires Valid(busy) && t in ids
      modifies `rows, `active, `order
      ensures Valid(busy)
      ensures r == if t in old(active) then EOK else ERROR
      ensures Abs() == TimerSpec.StopTimer(old(Abs()), t)
    {
      if t !in active { return ERROR; }
      hide Row, Tall, Ok, Sorted, Distinct, Fair, Setting, Rows;
      StopFacts(Abs(), now, t, busy);
      Remove(t);
      active := active - {t};
      forall u | u in order ensures Pending(u) { assert old(Pending(u)); }
      return EOK;
    }

    /** A timeout function: its calls, in order. */
    method Timeout(a: seq<Action>, ghost busy: int)
      requires Valid(busy) && (forall x :: x in a ==> x.id in ids && (x.Start? ==> x.id != busy))
      modifies `rows, `timeout, `active, `random, `order, `deadline, `height
      ensures Valid(busy) && Abs() == Acts(Cfg(), old(Abs()), now, a)
    {
      hide Rows, Ticking, Ok;
      for i := 0 to |a|
        invariant Valid(busy)
        invariant Acts(Cfg(), old(Abs()), now, a) == Acts(Cfg(), Abs(), now, a[i..])
      {
        assert a[i..][1..] == a[i + 1..];
        assert a[i] in a;
        var r;
        match a[i]
        case Start(t) => r := StartTimer(t, busy);
        case Stop(t) => r := StopTimer(t, busy);
      }
    }

    /** The body of the loop of rt_timer_check, for a timer that has expired. */
    method Expire(t: int)
      requires Valid(NOBODY) && order != [] && t == order[0]
      modifies `rows, `timeout, `active, `random, `order, `deadline, `height
      ensures Valid(NOBODY) && Abs() == Fire(Cfg(), old(Abs()), now)
    {
      hide Row, Tall, Sorted, Distinct, Rows;
      FireFacts(Cfg(), Abs(), now);
      assert Pending(t);
      Remove(t);
      forall u | u in order ensures Pending(u) { assert old(Pending(u)); }
      hide Ok;
      assert script[t] == ScriptOf(Cfg(), t);
      Timeout(script[t], t);
      Restart(t);
    }

    static lemma FireFacts(c: Config, s: Sys, now: int)
      requires Ok(s, now, NOBODY) && Fair(c) && s.order != []
      ensures var t := s.order[0];
              Ok(s.(order := s.order[1..]), now, t) && Del(s.order, t) == s.order[1..] && t != NOBODY && t in s.order &&
              (forall u :: u in s.order[1..] ==> u in s.order) &&
              forall x :: x in ScriptOf(c, t) ==> (x.Start? ==> x.id != t)
    {
      PopOk(s, now);
    }

    /** A periodic timer that was not stopped starts again. */
    method Restart(t: int)
      requires Valid(t) && t in ids
      modifies `rows, `timeout, `active, `random, `order, `deadline, `height
      ensures Valid(NOBODY) && Abs() == Settle(Cfg(), old(Abs()), now, t)
    {
      var again := t in periodic && t in active;
      IdleOk(Abs(), now, t);
      hide Row, Tall, Sorted, Distinct, Rows, Ok, Fair;
      active := active - {t};
      if again {
        var r := StartTimer(t, NOBODY);
      }
    }

    static lemma IdleOk(s: Sys, now: int, t: int)
      requires Ok(s, now, t)
      ensures Ok(s.(active := s.active - {t}), now, NOBODY)
    {
    }

    lemma LastRow()
      requires Rows() && Ticking()
      ensures |rows| == levels > 0 && RowOf(levels - 1) == order && HEAD in rows[levels - 1].next
      ensures rows[levels - 1].next[HEAD] == if order == [] then HEAD else order[0]
      ensures order != [] ==> order[0] in ids && order[0] != HEAD
    {
      assert RowAt(levels - 1);
      forall u | u in order ensures At(height, u) >= 1 { assert Pending(u); }
      TallAll(order, height);
      RingAt(rows[levels - 1], [HEAD] + order, 0);
      if order != [] { assert order[0] in order && Pending(order[0]); }
    }

    /** rt_timer_check. */
    method CheckTimers() returns (ghost fired: seq<int>)
      requires Valid(NOBODY)
      modifies `rows, `timeout, `active, `random, `order, `deadline, `height
      ensures Valid(NOBODY) && (Abs(), fired) == Check(Cfg(), old(Abs()), now)
    {
      hide Row, Tall, Rows, Check, Sorted, Distinct;
      fired := [];
      var current := tick;
      ghost var goal := Check(Cfg(), Abs(), now);
      assert goal.1 == [] + goal.1;
      while true
        invariant Valid(NOBODY) && current == tick
        invariant goal == (Check(Cfg(), Abs(), now).0, fired + Check(Cfg(), Abs(), now).1)
        decreases |Due(order, deadline, now)|
      {
        LastRow();
        var t := rows[levels - 1].next[HEAD];
        CheckIs(Cfg(), Abs(), now);
        if t == HEAD { break; }
        assert Soon(deadline, now, t) && Pending(t);
        TickExpired(now, deadline[t]);
        if Sub32(current, timeout[t]) < HALF {
          Expire(t);
          fired := fired + [t];
          current := tick;
        } else {
          break;
        }
      }
      assert fired + [] == fired;
    }

    /** One step of Check, and that it leads to the end. */
    static lemma CheckIs(c: Config, s: Sys, now: int)
      requires Ok(s, now, NOBODY) && Fair(c)
      ensures s.order == [] || At(s.deadline, s.order[0]) > now ==> Check(c, s, now) == (s, [])
      ensures s.order != [] && At(s.deadline, s.order[0]) <= now ==>
                var f := Fire(c, s, now);
                Ok(f, now, NOBODY) && |Due(f.order, f.deadline, now)| < |Due(s.order, s.deadline, now)| &&
                forall log: seq<int> :: log + Check(c, s, now).1 == (log + [s.order[0]]) + Check(c, f, now).1
      ensures s.order != [] && At(s.deadline, s.order[0]) <= now ==>
                Ok(Fire(c, s, now), now, NOBODY) && Check(c, s, now).0 == Check(c, Fire(c, s, now), now).0
    {
      if s.order != [] && At(s.deadline, s.order[0]) <= now {
        FireOk(c, s, now);
        FireDue(c, s, now);
      }
    }

    /** rt_tick_increase, as far as the timers go. */
    method TickIncrease() returns (ghost fired: seq<int>)
      requires Valid(NOBODY) && Between(Abs(), now)
      modifies `rows, `timeout, `active, `random, `order, `deadline, `height, `tick, `now
      ensures now == old(now) + 1 && Ok(old(Abs()), now, NOBODY)
      ensures Valid(NOBODY) && Between(Abs(), now) && (Abs(), fired) == Check(Cfg(), old(Abs()), now)
    {
      hide Ok, Rows, Pending, Fair, Check, Wrap, Add32;
      TickOk(Cfg(), Abs(), now);
      AddWraps(now, 1);
      tick := Add32(tick, 1);
      now := now + 1;
      fired := CheckTimers();
    }

    /** rt_timer_list_next_timeout. */
    method NextTimeout() returns (r: int)
      requires Valid(NOBODY)
      ensures order == [] ==> r == TICK_MAX
      ensures order != [] ==>
                exists t ::
                t in order && r == Wrap(At(deadline, t)) && forall u ::
                u in order ==> At(deadline, t) <= At(deadline, u)
    {
      LastRow();
      var t := rows[levels - 1].next[HEAD];
      if t == HEAD { return TICK_MAX; }
      HeadLeast(order, deadline);
      assert Pending(t);
      return timeout[t];
    }
  }
}
