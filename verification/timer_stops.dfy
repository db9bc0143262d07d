/** What stops and starts of a timer mean for the ticks at which it fires, over whole runs. */
module TimerStops {
  import opened RtList
  import opened SortedList
  import opened TimerSpec

  /** Of what is done to timer t the last is a stop. */
  ghost predicate StopsLast(a: seq<Action>, t: int) {
    exists i :: 0 <= i < |a| && a[i] == Stop(t) && Start(t) !in a[i + 1..]
  }

  /** t stays or becomes inactive under these actions. */
  ghost predicate SwitchesOff(s: Sys, a: seq<Action>, t: int) {
    StopsLast(a, t) || (t !in s.active && Start(t) !in a)
  }

  // ---- Actions ----

  /** A timer that is not active is not pending. */
  lemma OffIsOut(s: Sys, now: int, busy: int, t: int)
    requires Ok(s, now, busy) && t !in s.active
    ensures t !in s.order
  {
  }

  lemma StopsTail(a: seq<Action>, t: int)
    requires StopsLast(a, t)
    ensures a != [] && (StopsLast(a[1..], t) || (a[0] == Stop(t) && Start(t) !in a[1..]))
  {
    var i :| 0 <= i < |a| && a[i] == Stop(t) && Start(t) !in a[i + 1..];
    if i > 0 { assert a[1..][i - 1] == Stop(t) && a[1..][i..] == a[i + 1..]; }
  }

  lemma {:induction false} ActsOff(c: Config, s: Sys, now: int, a: seq<Action>, t: int)
    requires SwitchesOff(s, a, t)
    ensures t !in Acts(c, s, now, a).active
    decreases |a|
  {
    if a != [] {
      var s' := Act(c, s, now, a[0]);
      if StopsLast(a, t) { StopsTail(a, t); }
      ActsOff(c, s', now, a[1..], t);
    }
  }

  /** A periodic timer is started again only if it is still active after its timeout function. */
  lemma FireOff(c: Config, s: Sys, now: int, t: int)
    requires s.order != [] && SwitchesOff(s, ScriptOf(c, s.order[0]), t)
    ensures t !in Fire(c, s, now).active
  {
    ActsOff(c, s.(order := s.order[1..]), now, ScriptOf(c, s.order[0]), t);
  }

  // ---- Checks ----

  /** No timeout function that runs in this check starts t. */
  ghost predicate NotStarted(c: Config, fired: seq<int>, t: int) {
    forall i :: 0 <= i < |fired| ==> Start(t) !in ScriptOf(c, fired[i])
  }

  lemma {:induction false} CheckOff(c: Config, s: Sys, now: int, t: int)
    requires Ok(s, now, NOBODY) && Fair(c) && t !in s.active && NotStarted(c, Check(c, s, now).1, t)
    ensures t !in Check(c, s, now).1 && t !in Check(c, s, now).0.active
    decreases |Due(s.order, s.deadline, now)|
  {
    OffIsOut(s, now, NOBODY, t);
    if s.order != [] && At(s.deadline, s.order[0]) <= now {
      FireOk(c, s, now);
      FireDue(c, s, now);
      var rest := Check(c, Fire(c, s, now), now).1;
      var fired := Check(c, s, now).1;
      assert fired == [s.order[0]] + rest && fired[0] == s.order[0];
      assert forall i :: 0 <= i < |rest| ==> rest[i] == fired[i + 1];
      FireOff(c, s, now, t);
      CheckOff(c, Fire(c, s, now), now, t);
    }
  }

  /** A timer that a timeout function stops, be it its own, does not fire any more in this check, and is not active
      afterwards, unless a later one starts it. */
  lemma {:induction false} CheckStops(c: Config, s: Sys, now: int, t: int, k: nat)
    requires Ok(s, now, NOBODY) && Fair(c) && k < |Check(c, s, now).1|
    requires StopsLast(ScriptOf(c, Check(c, s, now).1[k]), t)
    requires NotStarted(c, Check(c, s, now).1[k + 1..], t)
    ensures t !in Check(c, s, now).1[k + 1..] && t !in Check(c, s, now).0.active
    decreases |Due(s.order, s.deadline, now)|
  {
    FireOk(c, s, now);
    FireDue(c, s, now);
    var s' := Fire(c, s, now);
    var rest, fired := Check(c, s', now).1, Check(c, s, now).1;
    assert fired == [s.order[0]] + rest;
    assert fired[k + 1..] == rest[k..];
    if k == 0 {
      assert rest[0..] == rest;
      FireOff(c, s, now, t);
      CheckOff(c, s', now, t);
    } else {
      assert rest[k - 1] == fired[k] && rest[k - 1 + 1..] == fired[k + 1..];
      CheckStops(c, s', now, t, k - 1);
    }
  }

  // ---- Runs ----

  /** In this run no thread starts t, and no timeout function that runs does. */
  ghost predicate Unstarted(c: Config, s: Sys, now: int, ev: seq<Event>, t: int)
    requires Between(s, now) && Fair(c) && Sensible(ev)
  {
    Call(Start(t)) !in ev && forall x :: x in Log(c, s, now, ev) ==> Start(t) !in ScriptOf(c, x.1)
  }

  lemma LogOf(c: Config, s: Sys, now: int, ev: seq<Event>, t: int)
    requires Between(s, now) && Fair(c) && Sensible(ev) && ev != [] && ev[0].Tick? && Unstarted(c, s, now, ev, t)
    ensures Between(Check(c, s, now + 1).0, now + 1)
    ensures NotStarted(c, Check(c, s, now + 1).1, t)
    ensures Unstarted(c, Check(c, s, now + 1).0, now + 1, ev[1..], t)
  {
    TickOk(c, s, now);
    var r := Check(c, s, now + 1);
    var first := Stamped(now + 1, r.1);
    forall i | 0 <= i < |r.1| ensures Start(t) !in ScriptOf(c, r.1[i]) { assert first[i] in Log(c, s, now, ev); }
  }

  /** Over every run: a timer that is not active does not fire until it is started. */
  lemma {:induction false} StaysStopped(c: Config, s: Sys, now: int, ev: seq<Event>, t: int)
    requires Between(s, now) && Fair(c) && Sensible(ev) && t !in s.active && Unstarted(c, s, now, ev, t)
    ensures forall x :: x in Log(c, s, now, ev) ==> x.1 != t
    decreases |ev|
  {
    hide Ok, Fair, Check;
    if ev == [] {
    } else if ev[0].Tick? {
      LogOf(c, s, now, ev, t);
      TickOk(c, s, now);
      var r := Check(c, s, now + 1);
      CheckOff(c, s, now + 1, t);
      StaysStopped(c, r.0, now + 1, ev[1..], t);
      forall x | x in Stamped(now + 1, r.1) ensures x.1 != t { StampedIs(now + 1, r.1, x.0, x.1); }
    } else {
      var a := ev[0].action;
      CallOk(c, s, now, a);
      assert a != Start(t);
      StaysStopped(c, Act(c, s, now, a), now, ev[1..], t);
    }
  }

  /** In particular after a stop by a thread. */
  lemma StoppedStays(c: Config, s: Sys, now: int, ev: seq<Event>, t: int)
    requires Between(s, now) && Fair(c) && Sensible(ev) && t != NOBODY
    ensures Between(StopTimer(s, t), now) && t !in StopTimer(s, t).order && t !in StopTimer(s, t).active
    ensures Unstarted(c, StopTimer(s, t), now, ev, t) ==> forall x :: x in Log(c, StopTimer(s, t), now, ev) ==> x.1 != t
  {
    CallOk(c, s, now, Stop(t));
    OffIsOut(StopTimer(s, t), now, NOBODY, t);
    if Unstarted(c, StopTimer(s, t), now, ev, t) { StaysStopped(c, StopTimer(s, t), now, ev, t); }
  }

  // ---- Started, and fired once ----

  /** A timer that is started when it is not active waits for the tick that is its delay away; starting an active one
      changes nothing. */
  lemma StartWaits(c: Config, s: Sys, now: int, t: int)
    requires Between(s, now) && Fair(c) && t != NOBODY
    ensures t !in s.active ==> Waits(StartTimer(c, s, now, t), t, now + At(c.delay, t))
    ensures t in s.active ==> StartTimer(c, s, now, t) == s
  {
    InsertElements(s.order, s.deadline[t := now + At(c.delay, t)], t);
  }

  /** A timer that is not periodic, or that stops itself: after it has fired it is not active. */
  ghost predicate OneShot(c: Config, t: int) { t !in c.periodic || Stop(t) in ScriptOf(c, t) }

  lemma FireShoots(c: Config, s: Sys, now: int)
    requires Ok(s, now, NOBODY) && Fair(c) && s.order != [] && OneShot(c, s.order[0])
    ensures s.order[0] !in Fire(c, s, now).active
  {
    var t := s.order[0];
    var a := ScriptOf(c, t);
    if Stop(t) in a {
      var i :| 0 <= i < |a| && a[i] == Stop(t);
      assert forall x :: x in a[i + 1..] ==> x in a;
      assert StopsLast(a, t);
      FireOff(c, s, now, t);
    }
  }

  lemma {:induction false} CheckShoots(c: Config, s: Sys, now: int, t: int)
    requires Ok(s, now, NOBODY) && Fair(c) && OneShot(c, t) && t in Check(c, s, now).1
    requires NotStarted(c, Check(c, s, now).1, t)
    ensures t !in Check(c, s, now).0.active
    decreases |Due(s.order, s.deadline, now)|
  {
    FireOk(c, s, now);
    FireDue(c, s, now);
    var s' := Fire(c, s, now);
    var rest, fired := Check(c, s', now).1, Check(c, s, now).1;
    assert fired == [s.order[0]] + rest;
    assert forall i :: 0 <= i < |rest| ==> rest[i] == fired[i + 1];
    if s.order[0] == t {
      FireShoots(c, s, now);
      CheckOff(c, s', now, t);
    } else {
      CheckShoots(c, s', now, t);
    }
  }

  /** Over every run such a timer, once started, fires exactly once, at the tick that was set, unless it is stopped
      by others or started again. */
  lemma {:induction false} FiresOnce(c: Config, s: Sys, now: int, ev: seq<Event>, t: int, e: int, x: int)
    requires Between(s, now) && Fair(c) && Sensible(ev) && Waits(s, t, e) && OneShot(c, t)
    requires Call(Stop(t)) !in ev && forall u :: u != t ==> Stop(t) !in ScriptOf(c, u)
    requires Unstarted(c, s, now, ev, t)
    ensures (x, t) in Log(c, s, now, ev) <==> x == FirstTick(now, e) && x <= now + Ticks(ev)
    decreases |ev|
  {
    hide Ok, Fair, Check;
    if ev == [] {
    } else if ev[0].Tick? {
      LogOf(c, s, now, ev, t);
      TickOk(c, s, now);
      var r := Check(c, s, now + 1);
      LogIsLater(c, r.0, now + 1, ev[1..]);
      StampedIs(now + 1, r.1, x, t);
      OthersFire(c, s, now + 1, t, e);
      if e <= now + 1 {
        CheckShoots(c, s, now + 1, t);
        StaysStopped(c, r.0, now + 1, ev[1..], t);
      } else {
        FiresOnce(c, r.0, now + 1, ev[1..], t, e, x);
      }
    } else {
      var a := ev[0].action;
      CallKeeps(c, s, now, a, t, e);
      FiresOnce(c, Act(c, s, now, a), now, ev[1..], t, e, x);
    }
  }

  /** At a check a timer that no other one stops fires if and only if it is due, and else waits on. */
  lemma {:induction false} OthersFire(c: Config, s: Sys, now: int, t: int, e: int)
    requires Ok(s, now, NOBODY) && Fair(c) && Waits(s, t, e) && forall u :: u != t ==> Stop(t) !in ScriptOf(c, u)
    ensures t in Check(c, s, now).1 <==> e <= now
    ensures e > now ==> Waits(Check(c, s, now).0, t, e)
    decreases |Due(s.order, s.deadline, now)|
  {
    HeadLeast(s.order, s.deadline);
    if At(s.deadline, s.order[0]) <= now {
      FireOk(c, s, now);
      FireDue(c, s, now);
      var rest := Check(c, Fire(c, s, now), now).1;
      assert Check(c, s, now).1 == [s.order[0]] + rest;
      if s.order[0] != t {
        WaitsFire(c, s, now, t, e);
        OthersFire(c, Fire(c, s, now), now, t, e);
      } else {
        assert ([t] + rest)[0] == t;
      }
    }
  }
}
