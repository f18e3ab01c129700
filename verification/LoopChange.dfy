/** What a step of the main loop means to the rest of the server: at most one descriptor is forked, starts or ends
    dumping, is removed or is added; nothing else that the other threads rely on changes. */
module LoopChange {
  import opened Ordered
  import opened Times
  import opened Descriptors
  import opened Lifecycle
  import opened LifecycleInv
  import opened MainLoop

  datatype Change =
    | Same
    | Forked(h: Handle)
    | DumpBegun(h: Handle)
    | DumpEnded(h: Handle)
    | Removed(h: Handle)
    | Added(h: Handle, i: nat)

  ghost predicate SlotChange(m: Mgr, q: Mgr, c: Change) {
    match c
    case DumpBegun(h) => m.slot == None && q.slot == Some(h)
    case DumpEnded(h) => m.slot == Some(h) && q.slot == None
    case _ => q.slot == m.slot
  }

  ghost predicate KeyChange(m: Mgr, q: Mgr, c: Change) {
    match c
    case Removed(h) => h in m.d && q.byName == Remove(m.byName, h) && q.d.Keys == m.d.Keys - {h}
    case Added(h, i) =>
      h !in m.d && i <= |m.byName| && q.byName == InsertAt(m.byName, i, h) && q.d.Keys == m.d.Keys + {h}
    case _ => q.byName == m.byName && q.d.Keys == m.d.Keys
  }

  /** What the change does to the descriptor it is about. */
  ghost predicate SubjectChange(m: Mgr, q: Mgr, c: Change) {
    match c
    case Same => true
    case Forked(h) => h in m.d && h in q.d && m.d[h].si.stat.Unforked? && q.d[h].si.stat.Normal?
    case DumpBegun(h) =>
      && h in m.d && h in q.d && (m.d[h].si.stat.Normal? || m.d[h].si.stat.Cleanup?)
      && q.d[h].si.stat.Dumping? && m.d[h].users == 0 && q.d[h].users == 1
    case DumpEnded(h) =>
      h in m.d && h in q.d && m.d[h].si.stat.Dumping? && q.d[h].si.stat.Halting? && m.d[h].users == 0
    case Removed(h) => h in m.d && (m.d[h].creator || m.d[h].si.stat.Halting?) && m.d[h].users == 0
    case Added(h, _) => h in q.d && q.d[h].si.stat.Unforked? && q.d[h].users == 0
  }

  predicate About(c: Change, g: Handle) {
    !c.Same? && c.h == g
  }

  ghost predicate Others(m: Mgr, q: Mgr, c: Change) {
    forall g :: g in m.d && g in q.d ==>
      && q.d[g].creator == m.d[g].creator && q.d[g].name == m.d[g].name
      && (!m.d[g].creator || !c.Added? ==> q.d[g].id == m.d[g].id)
      && (!About(c, g) ==> q.d[g].si.stat == m.d[g].si.stat)
      && (!(c.DumpBegun? && c.h == g) ==> q.d[g].users == m.d[g].users)
  }

  ghost predicate Changed(m: Mgr, q: Mgr, c: Change) {
    SlotChange(m, q, c) && KeyChange(m, q, c) && SubjectChange(m, q, c) && Others(m, q, c)
  }

  function TrigChange(m: Mgr, h: Handle, born: Handle, name: int, ok: bool): Change
    requires Triggerable(m, h, born)
  {
    match m.d[h].si.trigger
    case ForkT => if ok then Forked(h) else Same
    case DumpingT => if Granted(m, h) then DumpBegun(h) else Same
    case HaltingT => if m.d[h].users == 0 then DumpEnded(h) else Same
    case EndT => Removed(h)
    case CreateT =>
      var d := m.d[born := NewDesc(m.d[h].id, name, m.age)];
      Added(born, Pos(m.byName, d, ByName, Key(d, ByName, born)))
  }

  lemma HaltChanged(m: Mgr, h: Handle)
    requires Inv(m) && h in m.d && m.d[h].si.trigger.HaltingT? && m.d[h].users == 0
    ensures Changed(m, Halt(m, h), DumpEnded(h))
  {
    HaltWakes(m, h);
  }

  lemma CreatedChanged(m: Mgr, c: Handle, h: Handle, name: int, q: Mgr, i: nat)
    requires c in m.d && h !in m.d && m.d[c].creator && Created(m, c, h, name, q)
    requires i <= |m.byName| && q.byName == InsertAt(m.byName, i, h)
    ensures Changed(m, q, Added(h, i))
  {
  }

  lemma CreateChanged(m: Mgr, h: Handle, born: Handle, name: int, ok: bool)
    requires h in m.d && born !in m.d && m.d[h].si.trigger.CreateT? && m.d[h].creator
    ensures Changed(m, Create(m, h, born, name), TrigChange(m, h, born, name, ok))
  {
    CreateFacts(m, h, born, name);
    CreatedChanged(m, h, born, name, Create(m, h, born, name), TrigChange(m, h, born, name, ok).i);
  }

  lemma RefusedSame(m: Mgr, h: Handle)
    requires h in m.d && !Granted(m, h)
    ensures Changed(m, DumpStart(m, h), Same)
  {
  }

  lemma DumpStartChanged(m: Mgr, h: Handle)
    requires SlotOk(m) && h in m.d && (m.d[h].si.stat.Normal? || m.d[h].si.stat.Cleanup?)
    ensures Changed(m, DumpStart(m, h), if Granted(m, h) then DumpBegun(h) else Same)
  {
    if Granted(m, h) { GrantedFree(m, h); } else { RefusedSame(m, h); }
  }

  lemma TrigChanged(m: Mgr, h: Handle, born: Handle, name: int, ok: bool)
    requires Inv(m) && Triggerable(m, h, born)
    ensures Changed(m, Trig(m, h, born, name, ok), TrigChange(m, h, born, name, ok))
  {
    assert DescOk(m.d[h], m.age);
    match m.d[h].si.trigger
    case ForkT =>
    case DumpingT => DumpStartChanged(m, h);
    case HaltingT => if m.d[h].users == 0 { HaltChanged(m, h); }
    case EndT =>
    case CreateT => CreateChanged(m, h, born, name, ok);
  }

  /** The steps that are the main thread's own, or a signal. */
  predicate OwnStep(st: Step) {
    !st.AcquireStep? && !st.ReleaseStep?
  }

  ghost function StepChange(s: State, st: Step): Change
    requires Enabled(s, st) && OwnStep(st)
  {
    match st
    case FireStep(h, born, name, ok) => TrigChange(s.m, h, born, name, ok)
    case DeleteStep =>
      var o := FirstCreator(s.m.byName, s.m.d);
      if o.Some? then Removed(o.value) else Same
    case CallStep(c, id, name) =>
      if s.cleaning && s.m.n <= 0 then
        var d := s.m.d[c := CreatorDesc(id, name)];
        Added(c, Pos(s.m.byName, d, ByName, Key(d, ByName, c)))
      else Same
    case _ => Same
  }

  lemma HeavySame(m: Mgr)
    ensures Changed(m, TooHeavy(m), Same)
  {
    WritableFacts(m.byName, m.d);
  }

  lemma DeleteChanged(s: State)
    requires Descs(s.m) && Enabled(s, DeleteStep)
    ensures Changed(s.m, DeleteCreator(s.m), StepChange(s, DeleteStep))
  {
    FirstCreatorFacts(s.m.byName, s.m.d);
    var o := FirstCreator(s.m.byName, s.m.d);
    if o.Some? {
      assert DescOk(s.m.d[o.value], s.m.age);
    }
  }

  lemma SignalSame(m: Mgr)
    requires Lists(m)
    ensures Changed(m, SignalRetry(m), Same)
  {
    SignalWakesAll(m);
  }

  lemma NewCreatorChanged(m: Mgr, c: Handle, id: int, name: int)
    requires c !in m.d
    ensures var d := m.d[c := CreatorDesc(id, name)];
            Changed(m, NewCreator(m, c, id, name), Added(c, Pos(m.byName, d, ByName, Key(d, ByName, c))))
  {
  }

  lemma CallChanged(s: State, c: Handle, id: int, name: int)
    requires Enabled(s, CallStep(c, id, name))
    ensures Changed(s.m, Apply(s, CallStep(c, id, name)).m, StepChange(s, CallStep(c, id, name)))
  {
    NewCreatorChanged(s.m, c, id, name);
  }

  lemma StepChanged(s: State, st: Step)
    requires Inv(s.m) && Enabled(s, st) && OwnStep(st)
    ensures Changed(s.m, Apply(s, st).m, StepChange(s, st))
  {
    match st
    case FireStep(h, born, name, ok) => TrigChanged(s.m, h, born, name, ok);
    case CheckStep => HeavySame(s.m);
    case DeleteStep => DeleteChanged(s);
    case CallStep(c, id, name) => CallChanged(s, c, id, name);
    case SignalStep => SignalSame(s.m);
    case TickStep(now) =>
    case StopStep =>
  }
}
