/** A thread that has given a mem-server back reads the descriptor once more, to find the manager that it signals.  By then
    the main thread may have removed it: how long is it there? */
module Pending {
  import opened Ordered
  import opened Times
  import opened Descriptors
  import opened Lifecycle
  import opened LifecycleInv
  import opened MainLoop
  import opened LoopChange
  import Press = BackPressure

  /** How many of h's triggers are still to fire before it is gone. */
  function ToGo(m: Mgr, h: Handle): nat {
    if h in m.d && !m.d[h].creator then Stage(m.d[h]) else 0
  }

  function Fired(st: Step, h: Handle): nat {
    if st.FireStep? && st.h == h then 1 else 0
  }

  lemma ChangeToGo(m: Mgr, q: Mgr, c: Change, h: Handle)
    requires Changed(m, q, c) && h in m.d && !m.d[h].creator
    ensures ToGo(q, h) >= ToGo(m, h) - if About(c, h) then 1 else 0
  {
  }

  lemma AboutFired(s: State, st: Step, h: Handle)
    requires Inv(s.m) && Enabled(s, st) && OwnStep(st) && h in s.m.d && !s.m.d[h].creator && About(StepChange(s, st), h)
    ensures Fired(st, h) == 1
  {
    FirstCreatorFacts(s.m.byName, s.m.d);
  }

  /** Only its own trigger brings a mem-server nearer to its end, one state at a time. */
  lemma StepToGo(s: State, st: Step, h: Handle)
    requires Inv(s.m) && Enabled(s, st) && h in s.m.d && !s.m.d[h].creator
    ensures ToGo(Apply(s, st).m, h) >= ToGo(s.m, h) - Fired(st, h)
  {
    if OwnStep(st) {
      StepChanged(s, st);
      ChangeToGo(s.m, Apply(s, st).m, StepChange(s, st), h);
      if About(StepChange(s, st), h) { AboutFired(s, st, h); }
    }
  }

  function Fires(sts: seq<Step>, i: nat, j: nat, h: Handle): nat
    requires i <= j <= |sts|
  {
    if i == j then 0 else Fires(sts, i, j - 1, h) + Fired(sts[j - 1], h)
  }

  lemma {:induction false} RunToGo(ss: seq<State>, sts: seq<Step>, i: nat, j: nat, h: Handle)
    requires Press.IsRun(ss, sts) && i <= j < |ss| && Inv(ss[i].m) && Fires(sts, i, j, h) < ToGo(ss[i].m, h)
    ensures Inv(ss[j].m) && ToGo(ss[j].m, h) >= ToGo(ss[i].m, h) - Fires(sts, i, j, h)
    decreases j
  {
    if i < j {
      RunToGo(ss, sts, i, j - 1, h);
      assert Press.StepAt(ss, sts, j - 1);
      StepInv(ss[j - 1], sts[j - 1]);
      StepToGo(ss[j - 1], sts[j - 1], h);
    }
  }

  /** Once a job has given a mem-server back it is there until its trigger has fired three times; once its exporter has,
      until it has fired twice. */
  lemma StillThere(ss: seq<State>, sts: seq<Step>, i: nat, j: nat, h: Handle)
    requires Press.IsRun(ss, sts) && i < j < |ss| && Inv(ss[i].m) && sts[i] == ReleaseStep(h)
    requires h in ss[i].m.d && Fires(sts, i, j, h) < if ss[i].m.d[h].si.stat.Dumping? then 2 else 3
    ensures h in ss[j].m.d
  {
    assert Press.StepAt(ss, sts, i) && DescOk(ss[i].m.d[h], ss[i].m.age);
    RunToGo(ss, sts, i, j, h);
  }

  /** That often it may: the exporter gives the mem-server back when its time is up, and halting and end are fired before
      the signal, which then goes through a descriptor that is gone. */
  lemma GoneBeforeSignal(s: State, h: Handle, born: Handle)
    requires Inv(s.m) && ClockOk(s.m.now) && s.pc.Fire? && IsDue(s.m, h) && born !in s.m.d
    requires s.m.d[h].si.stat.Dumping? && s.m.d[h].users == 1
    ensures Enabled(s, ReleaseStep(h))
    ensures var t := Apply(s, ReleaseStep(h));
            Enabled(t, FireStep(h, born, 0, true)) &&
            var u := Apply(t, FireStep(h, born, 0, true));
            Enabled(u, FireStep(h, born, 0, true)) &&
            var v := Apply(u, FireStep(h, born, 0, true));
            h !in v.m.d && Enabled(v, SignalStep)
  {
    assert DescOk(s.m.d[h], s.m.age) && s.m.slot == Some(h);
    assert Lists(AddUsers(s.m, h, -1)) by { UsersInv(s.m, h, -1); }
    HaltsAtOnce(AddUsers(s.m, h, -1), h);
  }

  /** Halting, and after it the end is due. */
  lemma HaltsAtOnce(m: Mgr, h: Handle)
    requires Lists(m) && ValidTime(m.now) && h in m.d && m.slot == Some(h) && m.d[h].users == 0
    ensures var q := Halt(m, h);
            IsDue(q, h) && q.d[h].si.trigger.EndT? && q.d.Keys == m.d.Keys
  {
    HaltWakes(m, h);
    DueIffNotAfter(m.now, m.now);
  }
}
