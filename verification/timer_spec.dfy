/** What the timer list of timer.c promises, over unbounded time: a list of timers sorted by deadline,
    equal deadlines first come first served. */
module TimerSpec {
  import opened RtList
  import opened SortedList

  const NOBODY := -1
  const HALF := 0x7FFF_FFFF     // RT_TICK_MAX / 2

  /** What a timeout function does to the timers. */
  datatype Action = Start(id: int) | Stop(id: int)

  /** Per timer: init_tick, the periodic flag, and the timeout function. */
  datatype Config = Config(delay: map<int, int>, periodic: set<int>, script: map<int, seq<Action>>)

  /** The pending timers in order, all deadlines, and the timers with the ACTIVATED flag. */
  datatype Sys = Sys(order: seq<int>, deadline: map<int, int>, active: set<int>)

  function ScriptOf(c: Config, t: int): seq<Action> { if t in c.script then c.script[t] else [] }

  function StartTimer(c: Config, s: Sys, now: int, t: int): Sys {
    if t in s.active then s else
    var d := s.deadline[t := now + At(c.delay, t)];
    Sys(Insert(s.order, d, t), d, s.active + {t})
  }

  function StopTimer(s: Sys, t: int): Sys {
    if t !in s.active then s else Sys(Del(s.order, t), s.deadline, s.active - {t})
  }

  function Act(c: Config, s: Sys, now: int, a: Action): Sys {
    match a
    case Start(t) => StartTimer(c, s, now, t)
    case Stop(t) => StopTimer(s, t)
  }

  function Acts(c: Config, s: Sys, now: int, a: seq<Action>): Sys
    decreases |a|
  {
    if a == [] then s else Acts(c, Act(c, s, now, a[0]), now, a[1..])
  }

  /** After its timeout function ran, a timer is started again if it is periodic and was not stopped. */
  function Settle(c: Config, s: Sys, now: int, t: int): Sys {
    var off := s.(active := s.active - {t});
    if t in c.periodic && t in s.active then StartTimer(c, off, now, t) else off
  }

  /** The first timer expires. */
  function Fire(c: Config, s: Sys, now: int): Sys
    requires s.order != []
  {
    Settle(c, Acts(c, s.(order := s.order[1..]), now, ScriptOf(c, s.order[0])), now, s.order[0])
  }

  /** The timers at the front whose deadline has come. */
  function Due(s: seq<int>, d: map<int, int>, now: int): seq<int> {
    if s == [] || At(d, s[0]) > now then [] else [s[0]] + Due(s[1..], d, now)
  }

  /** A timer that is pending between tick now - 1 and tick now. */
  ghost predicate Soon(d: map<int, int>, now: int, t: int) { now - 1 <= At(d, t) < now + HALF }

  /** The pending timers are sorted, distinct, activated, and not too far away; nobody else is
      activated but `busy`, whose timeout function runs. */
  ghost predicate Ok(s: Sys, now: int, busy: int) {
    && Sorted(s.order, s.deadline) && Distinct(s.order) && busy !in s.order && NOBODY !in s.order
    && (forall t :: t in s.order ==> t in s.active && t in s.deadline && Soon(s.deadline, now, t))
    && (forall t :: t in s.active ==> t != NOBODY && (t in s.order || t == busy))
  }

  /** The rules for the users of timers: delays below HALF, periods at least one tick; a timeout
      function starts only timers with a delay, and never its own timer. */
  ghost predicate Fair(c: Config) {
    && (forall t :: 0 <= At(c.delay, t) < HALF)
    && (forall t :: t in c.periodic ==> At(c.delay, t) >= 1)
    && (forall t, a :: a in ScriptOf(c, t) ==> a.id != NOBODY && (a.Start? ==> a.id != t && At(c.delay, a.id) >= 1))
  }

  // ---- Each operation keeps the list in order ----

  lemma StartOk(c: Config, s: Sys, now: int, t: int, busy: int)
    requires Ok(s, now, busy) && Fair(c) && t != busy && t != NOBODY
    ensures Ok(StartTimer(c, s, now, t), now, busy)
  {
    hide Insert, Sorted, Distinct;
    if t !in s.active {
      var d := s.deadline[t := now + At(c.delay, t)];
      SortedFrame(s.order, s.deadline, d);
      InsertOk(s.order, d, t);
      forall u | u in Insert(s.order, d, t) ensures Soon(d, now, u) {
        if u != t { assert Soon(s.deadline, now, u); }
      }
    }
  }

  lemma StopOk(s: Sys, now: int, t: int, busy: int)
    requires Ok(s, now, busy)
    ensures Ok(StopTimer(s, t), now, busy)
  {
    DelOk(s.order, s.deadline, t);
  }

  lemma {:induction false} ActsOk(c: Config, s: Sys, now: int, a: seq<Action>, busy: int)
    requires Ok(s, now, busy) && Fair(c)
    requires forall x :: x in a ==> x.id != NOBODY && (x.Start? ==> x.id != busy)
    ensures Ok(Acts(c, s, now, a), now, busy)
    decreases |a|
  {
    if a != [] {
      if a[0].Start? { StartOk(c, s, now, a[0].id, busy); } else { StopOk(s, now, a[0].id, busy); }
      ActsOk(c, Act(c, s, now, a[0]), now, a[1..], busy);
    }
  }

  lemma PopOk(s: Sys, now: int)
    requires Ok(s, now, NOBODY) && s.order != []
    ensures Ok(s.(order := s.order[1..]), now, s.order[0])
  {
    forall t | t in s.order ensures t in s.order[1..] || t == s.order[0] {
      var i :| 0 <= i < |s.order| && s.order[i] == t;
      if i > 0 { assert s.order[1..][i - 1] == t; }
    }
  }

  lemma SettleOk(c: Config, s: Sys, now: int, t: int)
    requires Ok(s, now, t) && Fair(c) && t != NOBODY
    ensures Ok(Settle(c, s, now, t), now, NOBODY)
  {
    var off := s.(active := s.active - {t});
    if t in c.periodic && t in s.active { StartOk(c, off, now, t, NOBODY); }
  }

  lemma FireOk(c: Config, s: Sys, now: int)
    requires Ok(s, now, NOBODY) && Fair(c) && s.order != []
    ensures Ok(Fire(c, s, now), now, NOBODY)
  {
    var t := s.order[0];
    PopOk(s, now);
    ActsOk(c, s.(order := s.order[1..]), now, ScriptOf(c, t), t);
    SettleOk(c, Acts(c, s.(order := s.order[1..]), now, ScriptOf(c, t)), now, t);
  }

  // ---- What is due ----

  /** What is left of the due timers when a timeout function stops some. */
  function Spared(due: seq<int>, a: seq<Action>): (r: seq<int>)
    ensures Subsequence(r, due) && |r| <= |due|
    decreases |a|
  {
    if a == [] then SubRefl(due); due
    else
      var d := if a[0].Stop? then Del(due, a[0].id) else due;
      var r := Spared(d, a[1..]);
      SubDel(due, a[0].id); SubRefl(due); SubTrans(r, d, due); SubTrans(r, due, due);
      r
  }

  /** The order in which due timers fire: each in turn, unless a timeout function before it stops it. */
  function Firing(c: Config, due: seq<int>): seq<int>
    decreases |due|
  {
    if due == [] then [] else [due[0]] + Firing(c, Spared(due[1..], ScriptOf(c, due[0])))
  }

  lemma {:induction false} DueInsert(s: seq<int>, d: map<int, int>, e: map<int, int>, now: int, x: int)
    requires At(e, x) > now && forall y :: y in s ==> At(d, y) == At(e, y)
    ensures Due(Insert(s, e, x), e, now) == Due(s, d, now)
  {
    if s != [] { DueInsert(s[1..], d, e, now, x); }
  }

  lemma {:induction false} DueDel(s: seq<int>, d: map<int, int>, now: int, x: int)
    requires Sorted(s, d)
    ensures Due(Del(s, x), d, now) == Del(Due(s, d, now), x)
  {
    if s != [] {
      DueDel(s[1..], d, now, x);
      if s[0] == x && At(d, x) > now && |s| > 1 { assert At(d, s[0]) <= At(d, s[1]); }
    }
  }

  lemma {:induction false} DueIs(s: seq<int>, d: map<int, int>, now: int)
    requires Sorted(s, d)
    ensures forall t :: t in Due(s, d, now) <==> t in s && At(d, t) <= now
    ensures Due(s, d, now) <= s
  {
    if s != [] {
      HeadLeast(s, d);
      if At(d, s[0]) <= now {
        hide Sorted;
        DueIs(s[1..], d, now);
        assert forall t :: t in s <==> t == s[0] || t in s[1..];
      }
    }
  }

  lemma {:induction false} DueActs(c: Config, s: Sys, now: int, a: seq<Action>, busy: int)
    requires Ok(s, now, busy) && Fair(c)
    requires forall x :: x in a ==> x.id != NOBODY && (x.Start? ==> x.id != busy && At(c.delay, x.id) >= 1)
    ensures var r := Acts(c, s, now, a); Due(r.order, r.deadline, now) == Spared(Due(s.order, s.deadline, now), a)
    decreases |a|
  {
    if a != [] {
      var s', t := Act(c, s, now, a[0]), a[0].id;
      var due := Due(s.order, s.deadline, now);
      if a[0].Start? {
        StartOk(c, s, now, t, busy);
        if t !in s.active { DueInsert(s.order, s.deadline, s'.deadline, now, t); }
      } else {
        StopOk(s, now, t, busy);
        DueDel(s.order, s.deadline, now, t);
        if t !in s.active { DelAbsent(s.order, t); }
      }
      DueActs(c, s', now, a[1..], busy);
    }
  }

  /** Firing the first timer leaves due what its timeout function spared, and nothing else. */
  lemma FireDue(c: Config, s: Sys, now: int)
    requires Ok(s, now, NOBODY) && Fair(c) && s.order != [] && At(s.deadline, s.order[0]) <= now
    ensures var r := Fire(c, s, now);
            Due(r.order, r.deadline, now) == Spared(Due(s.order, s.deadline, now)[1..], ScriptOf(c, s.order[0]))
  {
    var t := s.order[0];
    var popped := s.(order := s.order[1..]);
    PopOk(s, now);
    DueActs(c, popped, now, ScriptOf(c, t), t);
    ActsOk(c, popped, now, ScriptOf(c, t), t);
    var s1 := Acts(c, popped, now, ScriptOf(c, t));
    if t in c.periodic && t in s1.active {
      DueInsert(s1.order, s1.deadline, s1.deadline[t := now + At(c.delay, t)], now, t);
    }
  }

  /** rt_timer_check: fire the first timer as long as it is due. */
  ghost function Check(c: Config, s: Sys, now: int): (r: (Sys, seq<int>))
    requires Ok(s, now, NOBODY) && Fair(c)
    decreases |Due(s.order, s.deadline, now)|
  {
    if s.order == [] || At(s.deadline, s.order[0]) > now then (s, []) else
    FireOk(c, s, now); FireDue(c, s, now);
    var rest := Check(c, Fire(c, s, now), now);
    (rest.0, [s.order[0]] + rest.1)
  }

  /** rt_timer_check fires exactly the due timers that no timeout function stopped first, in the order
      of the list, and leaves nothing that is due. */
  lemma {:induction false} CheckFires(c: Config, s: Sys, now: int)
    requires Ok(s, now, NOBODY) && Fair(c)
    ensures var (s', fired) := Check(c, s, now);
            fired == Firing(c, Due(s.order, s.deadline, now)) && Ok(s', now, NOBODY) &&
            forall t :: t in s'.order ==> At(s'.deadline, t) > now
    decreases |Due(s.order, s.deadline, now)|
  {
    if s.order == [] || At(s.deadline, s.order[0]) > now {
    } else {
      FireOk(c, s, now);
      FireDue(c, s, now);
      CheckFires(c, Fire(c, s, now), now);
    }
  }


  // ---- Who fires, and when ----

  lemma {:induction false} SparedElements(due: seq<int>, a: seq<Action>, t: int)
    requires Distinct(due)
    ensures Distinct(Spared(due, a))
    ensures t in Spared(due, a) <==> t in due && Stop(t) !in a
    decreases |a|
  {
    if a != [] {
      DelElements(due, a[0].id);
      SparedElements(if a[0].Stop? then Del(due, a[0].id) else due, a[1..], t);
      assert Stop(t) in a <==> Stop(t) == a[0] || Stop(t) in a[1..];
    }
  }

  /** Exactly: no timer fires after a timeout function that stops it, and every due timer fires unless
      a timeout function that ran stops it.  Nothing overtakes. */
  lemma {:induction false} FiringIs(c: Config, due: seq<int>)
    requires Distinct(due)
    ensures var f := Firing(c, due);
            Subsequence(f, due) &&
            (forall i, j :: 0 <= i < j < |f| ==> Stop(f[j]) !in ScriptOf(c, f[i])) &&
            (forall t :: t in due && t !in f ==> exists u :: u in f && Stop(t) in ScriptOf(c, u))
    decreases |due|
  {
    if due != [] {
      var h, f := due[0], Firing(c, due);
      var rest := Spared(due[1..], ScriptOf(c, h));
      var g := Firing(c, rest);
      forall t ensures t in rest <==> t in due[1..] && Stop(t) !in ScriptOf(c, h) {
        SparedElements(due[1..], ScriptOf(c, h), t);
      }
      SparedElements(due[1..], ScriptOf(c, h), h);
      FiringIs(c, rest);
      SubTrans(g, rest, due[1..]);
      SubElements(g, rest);
      assert f == [h] + g;
      forall i, j | 0 <= i < j < |f| ensures Stop(f[j]) !in ScriptOf(c, f[i]) {
        assert f[j] == g[j - 1] && f[j] in g;
        if i > 0 { assert f[i] == g[i - 1]; }
      }
      forall t | t in due && t !in f ensures exists u :: u in f && Stop(t) in ScriptOf(c, u) {
        assert t != h by { assert h == f[0]; }
        if t in rest {
          assert t !in g;
          var u :| u in g && Stop(t) in ScriptOf(c, u);
          assert u in f;
        } else {
          assert h in f;
        }
      }
    }
  }

  /** A pending timer that is not due stays pending with its deadline, if nobody stops it. */
  ghost predicate Waits(s: Sys, t: int, e: int) { t in s.order && t in s.active && At(s.deadline, t) == e }

  lemma {:induction false} WaitsActs(c: Config, s: Sys, now: int, a: seq<Action>, busy: int, t: int, e: int)
    requires Ok(s, now, busy) && Fair(c) && Waits(s, t, e) && Stop(t) !in a
    requires forall x :: x in a ==> x.id != NOBODY && (x.Start? ==> x.id != busy)
    ensures Waits(Acts(c, s, now, a), t, e)
    decreases |a|
  {
    if a != [] {
      var s', u := Act(c, s, now, a[0]), a[0].id;
      if a[0].Start? {
        StartOk(c, s, now, u, busy);
        if u !in s.active { InsertOk(s.order, s.deadline[u := now + At(c.delay, u)], u); }
      } else {
        StopOk(s, now, u, busy);
        DelOk(s.order, s.deadline, u);
      }
      WaitsActs(c, s', now, a[1..], busy, t, e);
    }
  }

  lemma WaitsFire(c: Config, s: Sys, now: int, t: int, e: int)
    requires Ok(s, now, NOBODY) && Fair(c) && Waits(s, t, e) && s.order[0] != t
    requires Stop(t) !in ScriptOf(c, s.order[0])
    ensures Waits(Fire(c, s, now), t, e)
  {
    var h, popped := s.order[0], s.(order := s.order[1..]);
    PopOk(s, now);
    assert t in popped.order by { var i :| 0 <= i < |s.order| && s.order[i] == t; assert popped.order[i - 1] == t; }
    WaitsActs(c, popped, now, ScriptOf(c, h), h, t, e);
    ActsOk(c, popped, now, ScriptOf(c, h), h);
    var s1 := Acts(c, popped, now, ScriptOf(c, h));
    if h in c.periodic && h in s1.active {
      InsertElements(s1.order, s1.deadline[h := now + At(c.delay, h)], h);
    }
  }

  lemma {:induction false} WaitsCheck(c: Config, s: Sys, now: int, t: int, e: int)
    requires Ok(s, now, NOBODY) && Fair(c) && Waits(s, t, e) && e > now && forall u :: Stop(t) !in ScriptOf(c, u)
    ensures Waits(Check(c, s, now).0, t, e)
    decreases |Due(s.order, s.deadline, now)|
  {
    if At(s.deadline, s.order[0]) <= now {
      WaitsFire(c, s, now, t, e);
      FireOk(c, s, now);
      FireDue(c, s, now);
      WaitsCheck(c, Fire(c, s, now), now, t, e);
    }
  }

  // ---- Runs: ticks, and threads that start and stop timers in between ----

  datatype Event = Tick | Call(action: Action)

  ghost predicate Between(s: Sys, now: int) {
    Ok(s, now, NOBODY) && forall t :: t in s.order ==> At(s.deadline, t) >= now
  }

  ghost predicate Sensible(ev: seq<Event>) { forall i :: 0 <= i < |ev| && ev[i].Call? ==> ev[i].action.id != NOBODY }

  lemma TickOk(c: Config, s: Sys, now: int)
    requires Between(s, now) && Fair(c)
    ensures Ok(s, now + 1, NOBODY) && Between(Check(c, s, now + 1).0, now + 1)
  {
    forall t | t in s.order ensures Soon(s.deadline, now + 1, t) { assert Soon(s.deadline, now, t); }
    CheckFires(c, s, now + 1);
  }

  lemma CallOk(c: Config, s: Sys, now: int, a: Action)
    requires Between(s, now) && Fair(c) && a.id != NOBODY
    ensures Between(Act(c, s, now, a), now)
  {
    if a.Start? {
      StartOk(c, s, now, a.id, NOBODY);
      if a.id !in s.active {
        var d := s.deadline[a.id := now + At(c.delay, a.id)];
        assert forall u :: u in s.order ==> At(d, u) == At(s.deadline, u);
        InsertOk(s.order, d, a.id);
      }
    } else {
      StopOk(s, now, a.id, NOBODY);
      DelOk(s.order, s.deadline, a.id);
    }
  }

  function Stamped(now: int, fired: seq<int>): (r: seq<(int, int)>)
    ensures |r| == |fired| && forall i :: 0 <= i < |r| ==> r[i] == (now, fired[i])
  {
    if fired == [] then [] else [(now, fired[0])] + Stamped(now, fired[1..])
  }

  /** The firings of a run, each with its tick. */
  ghost function Log(c: Config, s: Sys, now: int, ev: seq<Event>): seq<(int, int)>
    requires Between(s, now) && Fair(c) && Sensible(ev)
    decreases |ev|
  {
    if ev == [] then []
    else if ev[0].Tick? then
      TickOk(c, s, now);
      var r := Check(c, s, now + 1);
      Stamped(now + 1, r.1) + Log(c, r.0, now + 1, ev[1..])
    else
      CallOk(c, s, now, ev[0].action);
      Log(c, Act(c, s, now, ev[0].action), now, ev[1..])
  }

  function Ticks(ev: seq<Event>): nat {
    if ev == [] then 0 else (if ev[0].Tick? then 1 else 0) + Ticks(ev[1..])
  }

  lemma {:induction false} LogIsLater(c: Config, s: Sys, now: int, ev: seq<Event>)
    requires Between(s, now) && Fair(c) && Sensible(ev)
    ensures forall x :: x in Log(c, s, now, ev) ==> x.0 > now
    decreases |ev|
  {
    if ev != [] {
      if ev[0].Tick? {
        TickOk(c, s, now);
        LogIsLater(c, Check(c, s, now + 1).0, now + 1, ev[1..]);
      } else {
        CallOk(c, s, now, ev[0].action);
        LogIsLater(c, Act(c, s, now, ev[0].action), now, ev[1..]);
      }
    }
  }

  /** At one tick a timer fires if its deadline is now and nobody stops it, and only if it has come. */
  lemma TickFires(c: Config, s: Sys, now: int, t: int, e: int)
    requires Ok(s, now, NOBODY) && Fair(c) && Waits(s, t, e)
    requires forall u :: Stop(t) !in ScriptOf(c, u)
    ensures t in Check(c, s, now).1 <==> e <= now
  {
    CheckFires(c, s, now);
    var due := Due(s.order, s.deadline, now);
    DueIs(s.order, s.deadline, now);
    DistinctPrefix(due, s.order);
    FiringIs(c, due);
    SubElements(Firing(c, due), due);
  }

  /** The tick at which a timer with deadline e fires: that of its deadline, or the next one if the deadline is
      now, as after a start without delay. */
  function FirstTick(now: int, e: int): int { if e <= now then now + 1 else e }

  /** A pending timer that nobody stops fires at that tick if the run gets there, and never before it,
      whatever else happens in the run. */
  lemma {:induction false} FiresOnTime(c: Config, s: Sys, now: int, ev: seq<Event>, t: int, e: int)
    requires Between(s, now) && Fair(c) && Sensible(ev) && Waits(s, t, e)
    requires Call(Stop(t)) !in ev && forall u :: Stop(t) !in ScriptOf(c, u)
    ensures forall x :: x in Log(c, s, now, ev) && x.1 == t ==> x.0 >= FirstTick(now, e)
    ensures now + Ticks(ev) >= FirstTick(now, e) ==> (FirstTick(now, e), t) in Log(c, s, now, ev)
    decreases |ev|
  {
    hide Ok, Fair, Check;
    if ev == [] {
    } else if ev[0].Tick? {
      TickOk(c, s, now);
      var r := Check(c, s, now + 1);
      TickFires(c, s, now + 1, t, e);
      LogIsLater(c, r.0, now + 1, ev[1..]);
      if e <= now + 1 {
        assert t in r.1;
        var i :| 0 <= i < |r.1| && r.1[i] == t;
        assert Stamped(now + 1, r.1)[i] == (now + 1, t);
      } else {
        WaitsCheck(c, s, now + 1, t, e);
        FiresOnTime(c, r.0, now + 1, ev[1..], t, e);
      }
    } else {
      var a := ev[0].action;
      CallOk(c, s, now, a);
      assert Acts(c, s, now, [a]) == Acts(c, Act(c, s, now, a), now, []);
      WaitsActs(c, s, now, [a], NOBODY, t, e);
      assert Act(c, s, now, a) == Acts(c, s, now, [a]);
      FiresOnTime(c, Act(c, s, now, a), now, ev[1..], t, e);
    }
  }

  lemma DistinctPrefix(a: seq<int>, b: seq<int>)
    requires a <= b && Distinct(b)
    ensures Distinct(a)
  {
    assert forall i :: 0 <= i < |a| ==> a[i] == b[i];
  }

  // ---- Periodic timers ----

  /** A periodic timer that is due is pending again after the check, one period later. */
  lemma {:induction false} CheckRestarts(c: Config, s: Sys, now: int, t: int, e: int)
    requires Ok(s, now, NOBODY) && Fair(c) && Waits(s, t, e) && e <= now && t in c.periodic
    requires forall u :: Stop(t) !in ScriptOf(c, u)
    ensures Waits(Check(c, s, now).0, t, now + At(c.delay, t))
    decreases |Due(s.order, s.deadline, now)|
  {
    HeadLeast(s.order, s.deadline);
    FireOk(c, s, now);
    FireDue(c, s, now);
    if s.order[0] == t {
      FireRestarts(c, s, now);
      WaitsCheck(c, Fire(c, s, now), now, t, now + At(c.delay, t));
    } else {
      WaitsFire(c, s, now, t, e);
      CheckRestarts(c, Fire(c, s, now), now, t, e);
    }
  }

  lemma FireRestarts(c: Config, s: Sys, now: int)
    requires Ok(s, now, NOBODY) && Fair(c) && s.order != [] && s.order[0] in c.periodic
    requires Stop(s.order[0]) !in ScriptOf(c, s.order[0])
    ensures Waits(Fire(c, s, now), s.order[0], now + At(c.delay, s.order[0]))
  {
    var t, popped := s.order[0], s.(order := s.order[1..]);
    PopOk(s, now);
    StaysActive(c, popped, now, ScriptOf(c, t), t);
    var s1 := Acts(c, popped, now, ScriptOf(c, t));
    InsertElements(s1.order, s1.deadline[t := now + At(c.delay, t)], t);
  }

  lemma {:induction false} StaysActive(c: Config, s: Sys, now: int, a: seq<Action>, t: int)
    requires t in s.active && Stop(t) !in a
    ensures t in Acts(c, s, now, a).active
    decreases |a|
  {
    if a != [] { StaysActive(c, Act(c, s, now, a[0]), now, a[1..], t); }
  }

  /** The tick x is e or lies a number of periods after it. */
  predicate OnBeat(x: int, e: int, period: int)
    decreases x - e
  {
    x == e || (x > e && period >= 1 && OnBeat(x, e + period, period))
  }

  lemma {:induction false} BeatIsLater(x: int, e: int, period: int)
    requires OnBeat(x, e, period)
    ensures x >= e
    decreases x - e
  {
    if x != e { BeatIsLater(x, e + period, period); }
  }

  lemma StampedIs(now: int, fired: seq<int>, x: int, t: int)
    ensures (x, t) in Stamped(now, fired) <==> x == now && t in fired
  {
    if x == now && t in fired {
      var i :| 0 <= i < |fired| && fired[i] == t;
      assert Stamped(now, fired)[i] == (x, t);
    }
  }

  /** A periodic timer that nobody stops fires first as above and then once each period, at these ticks and
      at no others, as long as the run goes. */
  lemma {:induction false} FiresPeriodically(c: Config, s: Sys, now: int, ev: seq<Event>, t: int, e: int, x: int)
    requires Between(s, now) && Fair(c) && Sensible(ev) && Waits(s, t, e) && t in c.periodic
    requires Call(Stop(t)) !in ev && forall u :: Stop(t) !in ScriptOf(c, u)
    ensures (x, t) in Log(c, s, now, ev) <==> OnBeat(x, FirstTick(now, e), At(c.delay, t)) && x <= now + Ticks(ev)
    decreases |ev|
  {
    var period, first := At(c.delay, t), FirstTick(now, e);
    hide Ok, Check;
    if OnBeat(x, first, period) { BeatIsLater(x, first, period); }
    if ev == [] {
    } else if ev[0].Tick? {
      TickOk(c, s, now);
      var r := Check(c, s, now + 1);
      TickFires(c, s, now + 1, t, e);
      LogIsLater(c, r.0, now + 1, ev[1..]);
      StampedIs(now + 1, r.1, x, t);
      if e <= now + 1 {
        CheckRestarts(c, s, now + 1, t, e);
        FiresPeriodically(c, r.0, now + 1, ev[1..], t, first + period, x);
        if OnBeat(x, first + period, period) { BeatIsLater(x, first + period, period); }
      } else {
        WaitsCheck(c, s, now + 1, t, e);
        FiresPeriodically(c, r.0, now + 1, ev[1..], t, e, x);
      }
    } else {
      CallKeeps(c, s, now, ev[0].action, t, e);
      FiresPeriodically(c, Act(c, s, now, ev[0].action), now, ev[1..], t, e, x);
    }
  }

  lemma CallKeeps(c: Config, s: Sys, now: int, a: Action, t: int, e: int)
    requires Between(s, now) && Fair(c) && a.id != NOBODY && Waits(s, t, e) && a != Stop(t)
    ensures Between(Act(c, s, now, a), now) && Waits(Act(c, s, now, a), t, e)
  {
    CallOk(c, s, now, a);
    assert Acts(c, s, now, [a]) == Acts(c, Act(c, s, now, a), now, []);
    WaitsActs(c, s, now, [a], NOBODY, t, e);
  }
}
