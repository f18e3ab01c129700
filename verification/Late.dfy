/** A run, from a start with nothing on disk, of one thread and with the heads fired in turn, after which the firing loop
    stops although a mem-server is due: because cmpTimeout leaves microseconds out of the order. */
module Late {
  import opened Ordered
  import opened Times
  import opened Descriptors
  import opened Lifecycle
  import opened LifecycleInv
  import opened MainLoop
  import opened Firing
  import Press = BackPressure
  import St = Start

  /** What is fired is the head of the list. */
  ghost predicate InTurn(s: State, st: Step) {
    st.FireStep? ==> s.m.byTimeout != [] && s.m.byTimeout[0] == st.h
  }

  ghost predicate TurnAt(ss: seq<State>, sts: seq<Step>, i: nat) {
    Press.StepAt(ss, sts, i) && InTurn(ss[i], sts[i])
  }

  /** The main thread alone can get from s to t. */
  ghost predicate Run(s: State, ss: seq<State>, sts: seq<Step>, t: State) {
    |ss| == |sts| + 1 && Inv(s.m) && ss[0] == s && ss[|sts|] == t && forall i: nat :: i < |sts| ==> TurnAt(ss, sts, i)
  }

  ghost predicate Reached(s: State, t: State) {
    exists ss, sts :: Run(s, ss, sts, t)
  }

  lemma Nothing(s: State)
    requires Inv(s.m)
    ensures Reached(s, s)
  {
    assert Run(s, [s], [], s);
  }

  lemma ReachedInv(s: State, t: State)
    requires Reached(s, t)
    ensures Inv(t.m)
  {
    var ss, sts :| Run(s, ss, sts, t);
    RunInv(ss, sts, |sts|);
  }

  lemma {:induction false} RunInv(ss: seq<State>, sts: seq<Step>, i: nat)
    requires i <= |sts| && |ss| == |sts| + 1 && Inv(ss[0].m) && forall k: nat :: k < |sts| ==> TurnAt(ss, sts, k)
    ensures Inv(ss[i].m)
  {
    if i > 0 {
      RunInv(ss, sts, i - 1);
      assert TurnAt(ss, sts, i - 1);
      StepInv(ss[i - 1], sts[i - 1]);
    }
  }

  lemma OneMore(s: State, t: State, st: Step)
    requires Reached(s, t) && Enabled(t, st) && InTurn(t, st)
    ensures Reached(s, Apply(t, st))
  {
    var ss, sts :| Run(s, ss, sts, t);
    var ss', sts' := ss + [Apply(t, st)], sts + [st];
    forall i: nat | i < |sts'| ensures TurnAt(ss', sts', i) {
      if i < |sts| { assert TurnAt(ss, sts, i); }
    }
    assert Run(s, ss', sts', Apply(t, st));
  }

  lemma HeadIs(m: Mgr, h: Handle)
    requires Lists(m) && h in m.d
    requires forall x :: x in m.d && x != h ==> m.d[h].timeout.sec < m.d[x].timeout.sec || Before(m.byTimeout, h, x)
    ensures m.byTimeout != [] && m.byTimeout[0] == h
  {
    assert h in m.byTimeout;
    var j :| 0 <= j < |m.byTimeout| && m.byTimeout[j] == h;
    var first := m.byTimeout[0];
    assert first in m.byTimeout && first in m.d;
    assert Key(m.d, ByTimeout, first) <= Key(m.d, ByTimeout, m.byTimeout[j]);
  }

  // ----- a pass in which nothing is due

  lemma NextPass(s: State, t: State, now: Time)
    requires Reached(s, t) && t.pc.Fire? && !t.cleaning && !TooFull(t.m) && ClockOk(now)
    requires forall h :: h in t.m.d ==> !IsDue(t.m, h)
    ensures Reached(s, t.(m := t.m.(now := now)))
  {
    HeadThere(s, t);
    OneMore(s, t, StopStep);
    var c := Unused(t.m);
    OneMore(s, t.(pc := Call), CallStep(c, 0, 0));
    OneMore(s, t.(pc := Tick), TickStep(now));
    OneMore(s, t.(m := t.m.(now := now), pc := Check), CheckStep);
  }

  lemma HeadThere(s: State, t: State)
    requires Reached(s, t)
    ensures t.m.byTimeout != [] ==> t.m.byTimeout[0] in t.m.d
  {
    ReachedInv(s, t);
    assert t.m.byTimeout != [] ==> t.m.byTimeout[0] in t.m.byTimeout;
  }

  lemma Unused(m: Mgr) returns (c: Handle)
    ensures c !in m.d
  {
    c := Above(m.d.Keys);
  }

  lemma Above(hs: set<Handle>) returns (c: Handle)
    ensures forall h :: h in hs ==> h < c
    decreases hs
  {
    c := 0;
    if h :| h in hs {
      var d := Above(hs - {h});
      c := if h < d then d else h + 1;
      assert forall x :: x in hs ==> x == h || x in hs - {h};
    }
  }

  // ----- the run

  /** A creator, 0, and when it is due next. */
  ghost predicate Creator(m: Mgr, at: Time) {
    0 in m.d && m.d[0].creator && m.d[0].timeout == at
  }

  /** A mem-server whose fork is still to be done, and when it is due. */
  ghost predicate ToFork(m: Mgr, h: Handle, at: Time) {
    h in m.d && !m.d[h].creator && m.d[h].si.stat.Unforked? && m.d[h].timeout == at
  }

  ghost predicate Scene(m: Mgr, n: nat, now: Time) {
    m.now == now && m.age == 1 && 3 <= m.max && m.n == n && forall h: Handle :: h in m.d <==> h < n
  }

  ghost predicate InLoop(s: State) { s.pc.Fire? && !s.cleaning }

  /** The creator adds a mem-server, n. */
  lemma CreatedScene(m: Mgr, n: nat, now: Time, name: int)
    requires Scene(m, n, now) && ClockOk(now) && now.sec + 60 <= TIMEMAX && 0 < n && Creator(m, now)
    ensures var q := Create(m, 0, n, name);
            && Scene(q, n + 1, now) && Creator(q, Time(now.sec + 60, now.usec)) && ToFork(q, n, now)
            && forall h :: h in m.d && h != 0 ==> q.d[h] == m.d[h]
  {
    CreateFacts(m, 0, n, name);
  }

  lemma CreateScene(s: State, t: State, n: nat, now: Time, name: int)
    requires Reached(s, t) && InLoop(t) && Scene(t.m, n, now) && ClockOk(now) && 0 < n && Creator(t.m, now)
    requires t.m.byTimeout != [] && t.m.byTimeout[0] == 0
    ensures 0 in t.m.d && n !in t.m.d && Reached(s, t.(m := Create(t.m, 0, n, name)))
  {
    CreatorFires(s, t);
    FiresCreate(t, n, name);
    OneMore(s, t, FireStep(0, n, name, true));
  }

  lemma CreatorFires(s: State, t: State)
    requires Reached(s, t) && 0 in t.m.d && t.m.d[0].creator
    ensures t.m.d[0].si.trigger.CreateT?
  {
    ReachedInv(s, t);
    assert DescOk(t.m.d[0], t.m.age);
  }

  lemma FiresCreate(t: State, n: nat, name: int)
    requires InLoop(t) && 0 in t.m.d && n !in t.m.d && t.m.d[0].si.trigger.CreateT?
    requires t.m.d[0].timeout == t.m.now && ValidTime(t.m.now)
    ensures Enabled(t, FireStep(0, n, name, true))
    ensures Apply(t, FireStep(0, n, name, true)) == t.(m := Create(t.m, 0, n, name))
  {
    DueIffNotAfter(t.m.now, t.m.now);
  }

  /** A fork fails, and is to be tried again half a minute later. */
  lemma FailScene(s: State, t: State, n: nat, now: Time, h: Handle, at: Time)
    requires Reached(s, t) && InLoop(t) && Scene(t.m, n, now) && ClockOk(now) && now.sec + 30 <= TIMEMAX
    requires ToFork(t.m, h, at) && ValidTime(at) && NotAfter(at, now) && t.m.byTimeout != [] && t.m.byTimeout[0] == h
    ensures t.m.d[h].next.Some?
    ensures var u := t.(m := Fork(t.m, h, false));
            && Reached(s, u) && Scene(u.m, n, now) && ToFork(u.m, h, Time(now.sec + 30, now.usec))
            && forall x :: x in t.m.d && x != h ==> u.m.d[x] == t.m.d[x]
  {
    DueIffNotAfter(at, now);
    assert t.m.d[h].si.trigger.ForkT? && t.m.d[h].next.Some? by {
      ReachedInv(s, t);
      assert DescOk(t.m.d[h], t.m.age);
    }
    OneMore(s, t, FireStep(h, n, 0, false));
  }

  // ----- the run

  /** The creator has added a mem-server whose fork has failed twice; its third attempt and the creator are due in the same
      second, 60 s after the start, and the creator stands in front. */
  ghost predicate Meeting(m: Mgr, sec: int) {
    && Scene(m, 2, Time(sec + 60, 0)) && Creator(m, Time(sec + 60, 0)) && ToFork(m, 1, Time(sec + 60, 900000))
    && Before(m.byTimeout, 0, 1)
  }

  lemma FirstPass(s: State, sec: int, name: int) returns (t: State)
    requires Inv(s.m) && s.pc.Check? && !s.cleaning && Scene(s.m, 1, Time(sec, 0)) && Creator(s.m, Time(sec, 0))
    requires 0 < sec && sec + 60 < TIMEMAX
    ensures Reached(s, t) && InLoop(t) && Scene(t.m, 2, Time(sec + 30, 900000))
    ensures Creator(t.m, Time(sec + 60, 0)) && ToFork(t.m, 1, Time(sec + 30, 0))
  {
    Nothing(s);
    OneMore(s, s, CheckStep);
    t := s.(pc := Fire);
    HeadIs(t.m, 0);
    CreateScene(s, t, 1, Time(sec, 0), name);
    CreatedScene(t.m, 1, Time(sec, 0), name);
    t := t.(m := Create(t.m, 0, 1, name));
    ReachedInv(s, t);
    HeadIs(t.m, 1);
    FailScene(s, t, 2, Time(sec, 0), 1, Time(sec, 0));
    t := t.(m := Fork(t.m, 1, false));
    NotYet(t.m, sec);
    NextPass(s, t, Time(sec + 30, 900000));
    t := t.(m := t.m.(now := Time(sec + 30, 900000)));
  }

  lemma NotYet(m: Mgr, sec: int)
    requires Scene(m, 2, Time(sec, 0)) && Creator(m, Time(sec + 60, 0)) && ToFork(m, 1, Time(sec + 30, 0))
    ensures forall h :: h in m.d ==> !IsDue(m, h)
  {
    DueIffNotAfter(Time(sec + 60, 0), m.now);
    DueIffNotAfter(Time(sec + 30, 0), m.now);
  }

  lemma SecondPass(s: State, t: State, sec: int) returns (u: State)
    requires Reached(s, t) && InLoop(t) && Scene(t.m, 2, Time(sec + 30, 900000))
    requires Creator(t.m, Time(sec + 60, 0)) && ToFork(t.m, 1, Time(sec + 30, 0)) && 0 < sec && sec + 60 < TIMEMAX
    ensures Reached(s, u) && InLoop(u) && Meeting(u.m, sec)
  {
    ReachedInv(s, t);
    HeadIs(t.m, 1);
    FailScene(s, t, 2, Time(sec + 30, 900000), 1, Time(sec + 30, 0));
    u := t.(m := Fork(t.m, 1, false));
    PutBehind(t.m, 1, t.m.d[1].(si := t.m.d[1].si.(retry := true, ttl := FORK_RETRY)), 0);
    NotYetAgain(u.m, sec);
    NextPass(s, u, Time(sec + 60, 0));
    u := u.(m := u.m.(now := Time(sec + 60, 0)));
  }

  lemma NotYetAgain(m: Mgr, sec: int)
    requires Scene(m, 2, Time(sec + 30, 900000)) && Creator(m, Time(sec + 60, 0)) && ToFork(m, 1, Time(sec + 60, 900000))
    ensures forall h :: h in m.d ==> !IsDue(m, h)
  {
    DueIffNotAfter(Time(sec + 60, 0), m.now);
    DueIffNotAfter(Time(sec + 60, 900000), m.now);
  }

  /** The new mem-server is due now, behind the other, which is not due for the best part of a second. */
  ghost predicate StoppedLate(s: State) {
    Enabled(s, StopStep) && IsDue(s.m, 2) && !LeavesNothing(s.m) && Inv(s.m)
  }

  lemma ThirdPass(s: State, t: State, sec: int, name: int) returns (u: State)
    requires Reached(s, t) && InLoop(t) && Meeting(t.m, sec) && 0 < sec && sec + 120 < TIMEMAX
    ensures Reached(s, u) && StoppedLate(u)
  {
    ReachedInv(s, t);
    HeadIs(t.m, 0);
    CreateScene(s, t, 2, Time(sec + 60, 0), name);
    CreatedScene(t.m, 2, Time(sec + 60, 0), name);
    u := t.(m := Create(t.m, 0, 2, name));
    CreateBehind(t.m, 0, 2, name, 1);
    ReachedInv(s, u);
    EndsLate(u, sec);
  }

  lemma EndsLate(s: State, sec: int)
    requires InLoop(s) && Inv(s.m) && Scene(s.m, 3, Time(sec + 60, 0)) && Creator(s.m, Time(sec + 120, 0))
    requires ToFork(s.m, 1, Time(sec + 60, 900000)) && ToFork(s.m, 2, Time(sec + 60, 0)) && Before(s.m.byTimeout, 1, 2)
    ensures StoppedLate(s)
  {
    DueIffNotAfter(Time(sec + 60, 900000), s.m.now);
    DueIffNotAfter(Time(sec + 60, 0), s.m.now);
    HeadIs(s.m, 1);
    assert Blocks(s.m, 1) && Behind(s.m, 2);
    assert s.m.slot == None by {
      assert forall h :: h in s.m.d ==> h == 0 || h == 1 || h == 2;
      assert DescOk(s.m.d[0], 1);
    }
  }

  /** From a start with nothing on disk, with a period of one minute, at any second of the clock. */
  lemma LateByMicroseconds(sec: int, max: int, wait: bool, off: int, name: int, first: int, second: int) returns (t: State)
    requires 0 < sec && sec + 120 < TIMEMAX && 3 <= max
    ensures Reached(St.StartLoop([], wait, Time(sec, 0), 1, max, off, name), t) && StoppedLate(t)
  {
    var s := St.StartLoop([], wait, Time(sec, 0), 1, max, off, name);
    St.StartsWell([], wait, Time(sec, 0), 1, max, off, name, max);
    St.ManagerFound([], Time(sec, 0), 1, max);
    St.CreatorRecords(St.NewManager([], Time(sec, 0), 1, max), 0, St.FirstId(Time(sec, 0), 1, off), name);
    t := FirstPass(s, sec, first);
    t := SecondPass(s, t, sec);
    t := ThirdPass(s, t, sec, second);
  }
}
