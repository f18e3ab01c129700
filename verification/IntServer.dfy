/** The main loop of the integrator server on its manager, one pass at a time, with no other thread in between: what a
    pass does is what the steps of MainLoop do, and the bound on mem-servers holds from pass to pass. */
module IntServer {
  import opened Ordered
  import opened Times
  import opened Descriptors
  import opened Lifecycle
  import opened LifecycleInv
  import opened MainLoop
  import opened Firing
  import opened Effects
  import opened MemManager
  import Press = BackPressure

  lemma {:induction false} FiringKeepsBound(s: State, log: seq<Choice>, b: int)
    requires Inv(s.m) && Press.Bounded(s, b) && s.pc.Fire? && FireAll(s.m, log).Some?
    ensures Inv(FireAll(s.m, log).value) && Press.Bounded(s.(m := FireAll(s.m, log).value), b)
    decreases |log|
  {
    if log != [] {
      var c, before := log[|log| - 1], log[..|log| - 1];
      FiringKeepsBound(s, before, b);
      var t := s.(m := FireAll(s.m, before).value);
      var st := FireStep(t.m.byTimeout[0], c.born, c.name, c.ok);
      StepInv(t, st);
      Press.StepBounded(t, st, b);
    }
  }

  lemma TooHeavyLists(m: Mgr)
    requires Lists(m)
    ensures Lists(TooHeavy(m))
  {
    WritableFacts(m.byName, m.d);
    var o := Writable(m.byName, m.d);
    if o.Some? {
      SetLists(m, o.value, m.d[o.value].(si := m.d[o.value].si.(ttl := 0)));
    }
  }

  ghost predicate OneCreator(m: Mgr) {
    forall b, c :: b in m.d && c in m.d && m.d[b].creator && m.d[c].creator ==> b == c
  }

  /** The check and, if it is needed, the deletion of the creator. */
  ghost function Checked(s: State): State
    requires s.pc.Check?
  {
    var t := Apply(s, CheckStep);
    if t.pc.Delete? then Apply(t, DeleteStep) else t
  }

  /** As long as there are less than the maximum, nothing; otherwise cleaning up begins, and the only creator is gone. */
  ghost predicate CheckedAs(s: State, t: State) {
    if s.m.n < s.m.max then t == s.(pc := Fire)
    else t.pc.Fire? && t.cleaning && (OneCreator(s.m) ==> forall h :: h in t.m.d ==> !t.m.d[h].creator)
  }

  lemma CheckedExactly(s: State)
    requires s.pc.Check? && Lists(s.m)
    ensures CheckedAs(s, Checked(s))
  {
    TooHeavyExactly(s.m);
    TooHeavyLists(s.m);
    DeleteCreatorExactly(TooHeavy(s.m));
  }

  /** The check, the firing of due heads until the head is not due, the call and the clock, in this order. */
  ghost predicate IsPass(start: State, log: seq<Choice>, c: Handle, id: int, name: int, now: Time, end: State) {
    && start.pc.Check? && ClockOk(now)
    && var checked := Checked(start);
       && FireAll(checked.m, log).Some?
       && var fired := checked.(m := FireAll(checked.m, log).value, pc := Call);
          && c !in fired.m.d
          && (fired.m.byTimeout != [] ==> !IsDue(fired.m, fired.m.byTimeout[0]))
          && end == Apply(Apply(fired, CallStep(c, id, name)), TickStep(now))
  }

  lemma CheckedInv(s: State)
    requires s.pc.Check? && Inv(s.m)
    ensures Inv(Checked(s).m) && Checked(s).pc.Fire?
  {
    StepInv(s, CheckStep);
    var t := Apply(s, CheckStep);
    if t.pc.Delete? { StepInv(t, DeleteStep); }
  }

  lemma CheckedBounded(s: State, b: int)
    requires s.pc.Check? && Inv(s.m) && Press.Bounded(s, b)
    ensures Press.Bounded(Checked(s), b)
  {
    Press.StepBounded(s, CheckStep, b);
    var t := Apply(s, CheckStep);
    if t.pc.Delete? {
      StepInv(s, CheckStep);
      Press.StepBounded(t, DeleteStep, b);
    }
  }

  lemma {:induction false} FiringKeepsInv(m: Mgr, log: seq<Choice>)
    requires Inv(m) && FireAll(m, log).Some?
    ensures Inv(FireAll(m, log).value)
    decreases |log|
  {
    if log != [] {
      var c, q := log[|log| - 1], FireAll(m, log[..|log| - 1]).value;
      FiringKeepsInv(m, log[..|log| - 1]);
      TrigInv(q, q.byTimeout[0], c.born, c.name, c.ok);
    }
  }

  /** From pass to pass the invariant is kept, and so is the bound. */
  lemma PassKeeps(start: State, log: seq<Choice>, c: Handle, id: int, name: int, now: Time, end: State, b: int)
    requires Inv(start.m) && IsPass(start, log, c, id, name, now, end)
    ensures Inv(end.m) && (Press.Bounded(start, b) ==> Press.Bounded(end, b))
  {
    var checked := Checked(start);
    var fired := checked.(m := FireAll(checked.m, log).value, pc := Call);
    var called := Apply(fired, CallStep(c, id, name));
    CheckedInv(start);
    FiringKeepsInv(checked.m, log);
    StepInv(fired, CallStep(c, id, name));
    StepInv(called, TickStep(now));
    if Press.Bounded(start, b) {
      CheckedBounded(start, b);
      FiringKeepsBound(checked, log, b);
      Press.StepBounded(fired, CallStep(c, id, name), b);
      Press.StepBounded(called, TickStep(now), b);
    }
  }

  class IntServer {
    const manager: MemServerManager
    var cleaning: bool  // call == cleanUpMemServer, and clients that write are told to try again

    ghost function At(pc: Pc): State
      reads this, manager, manager.names, manager.timeouts
    {
      State(manager.View(), pc, cleaning, 0)
    }

    ghost predicate Valid()
      reads this, manager, manager.names, manager.timeouts
    {
      manager.Valid() && Inv(manager.View())
    }

    constructor (manager: MemServerManager, cleaning: bool)
      requires manager.Valid() && Inv(manager.View())
      ensures Valid() && this.manager == manager && this.cleaning == cleaning
    {
      this.manager, this.cleaning := manager, cleaning;
    }

    /** The heaviness check at the top of the loop. */
    method Check()
      requires manager.Valid() && Lists(manager.View())
      modifies this`cleaning, manager`d, manager`nMemServer, manager.names, manager.timeouts
      ensures manager.Valid() && At(Fire) == Checked(old(At(Pc.Check)))
    {
      TooHeavyLists(manager.View());
      var heavy := manager.IsTooHeavy();
      if heavy {
        manager.DeleteMemServerCreator();
        cleaning := true;
      }
    }

    /** cleanUpMemServer. */
    method CleanUp(id: int, name: int) returns (ghost c: Handle)
      requires manager.Valid() && Lists(manager.View()) && cleaning
      modifies this`cleaning, manager`d, manager`nMemServer, manager`unused, manager.names, manager.timeouts
      ensures manager.Valid() && c !in old(manager.d) && At(Tick) == Apply(old(At(Call)), CallStep(c, id, name))
      ensures old(manager.nMemServer) > 0 ==> manager.View() == old(manager.View()) && cleaning
      ensures old(manager.nMemServer) <= 0 ==> CreatorAdded(old(manager.View()), c, id, name, manager.View()) && !cleaning
    {
      c := manager.unused;
      if manager.nMemServer > 0 {
        return;
      }
      var born := manager.NewMemServerCreator(id, name);
      cleaning := false;
    }

    /** The end of a pass: `call`, if it is set, and the clock. */
    method CallAndTick(id: int, name: int, now: Time) returns (ghost c: Handle)
      requires manager.Valid() && Lists(manager.View())
      modifies this`cleaning, manager, manager.names, manager.timeouts
      ensures manager.Valid() && manager.now == now && c !in old(manager.d)
      ensures ClockOk(now) ==> At(Pc.Check) == Apply(Apply(old(At(Call)), CallStep(c, id, name)), TickStep(now))
    {
      c := manager.unused;
      if cleaning {
        c := CleanUp(id, name);
      }
      manager.now := now;
    }

    /** One pass.  It always ends; it is the check, the firing of due heads until the head is not due, the call and the
        clock, in this order; and it keeps the bound. */
    method Pass(id: int, name: int, now: Time, ghost b: int) returns (ghost log: seq<Choice>, ghost c: Handle)
      requires Valid() && ClockOk(manager.now) && ClockOk(now)
      modifies this`cleaning, manager, manager.names, manager.timeouts
      ensures Valid() && IsPass(old(At(Pc.Check)), log, c, id, name, now, At(Pc.Check))
      ensures Press.Bounded(old(At(Pc.Check)), b) ==> Press.Bounded(At(Pc.Check), b) && manager.nMemServer <= b
    {
      ghost var start := At(Pc.Check);
      Check();
      ghost var checked := At(Fire);
      assert Inv(checked.m) by { CheckedInv(start); }
      log := manager.FireDue();
      ghost var fired := At(Call);
      c := CallAndTick(id, name, now);
      assert IsPass(start, log, c, id, name, now, At(Pc.Check));
      PassKeeps(start, log, c, id, name, now, At(Pc.Check), b);
    }
  }
}
