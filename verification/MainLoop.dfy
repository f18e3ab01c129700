/** The main loop of the integrator server over the mem-server manager, with the other threads taking and giving
    back mem-servers and signalling retries at any moment. */
module MainLoop {
  import opened Ordered
  import opened Times
  import opened Descriptors
  import opened Lifecycle
  import opened LifecycleInv

  /** Where the main thread is: before the heaviness check, before it deletes the creator, in the loop that fires due
      triggers, before `call`, or before the clock is read. */
  datatype Pc = Check | Delete | Fire | Call | Tick

  /** `cleaning`: call == cleanUpMemServer.  `pending`: threads that have decreased a user count and not yet
      called signalRetry. */
  datatype State = State(m: Mgr, pc: Pc, cleaning: bool, pending: nat)

  datatype Step =
    | CheckStep
    | DeleteStep
    | FireStep(h: Handle, born: Handle, name: int, ok: bool)
    | StopStep
    | CallStep(c: Handle, id: int, name: int)
    | TickStep(now: Time)
    | AcquireStep
    | ReleaseStep(h: Handle)
    | SignalStep

  ghost predicate ClockOk(now: Time) {
    ValidTime(now) && 0 < now.sec < TIMEMAX
  }

  predicate IsDue(m: Mgr, h: Handle) {
    h in m.d && Due(m.d[h].timeout, m.now)
  }

  predicate Triggerable(m: Mgr, h: Handle, born: Handle) {
    h in m.d && born !in m.d && (m.d[h].si.trigger.ForkT? ==> m.d[h].next.Some?)
  }

  function Trig(m: Mgr, h: Handle, born: Handle, name: int, ok: bool): Mgr
    requires Triggerable(m, h, born)
  {
    match m.d[h].si.trigger
    case ForkT => Fork(m, h, ok)
    case DumpingT => DumpStart(m, h)
    case HaltingT => Halt(m, h)
    case EndT => Del(m, h)
    case CreateT => Create(m, h, born, name)
  }

  ghost predicate Enabled(s: State, st: Step) {
    match st
    case CheckStep => s.pc.Check?
    case DeleteStep => s.pc.Delete?
    case FireStep(h, born, _, _) => s.pc.Fire? && IsDue(s.m, h) && Triggerable(s.m, h, born)
    case StopStep => s.pc.Fire? && (s.m.byTimeout == [] || !IsDue(s.m, s.m.byTimeout[0]))
    case CallStep(c, _, _) => s.pc.Call? && c !in s.m.d
    case TickStep(now) => s.pc.Tick? && ClockOk(now)
    case AcquireStep => Writable(s.m.byName, s.m.d).Some? && Writable(s.m.byName, s.m.d).value in s.m.d
    case ReleaseStep(h) => h in s.m.d && s.m.d[h].users > 0
    case SignalStep => s.pending > 0
  }

  function TooFull(m: Mgr): bool { m.n >= m.max }

  ghost function Apply(s: State, st: Step): State
    requires Enabled(s, st)
  {
    match st
    case CheckStep => if TooFull(s.m) then s.(m := TooHeavy(s.m), pc := Delete) else s.(pc := Fire)
    case DeleteStep => s.(m := DeleteCreator(s.m), pc := Fire, cleaning := true)
    case FireStep(h, born, name, ok) => s.(m := Trig(s.m, h, born, name, ok))
    case StopStep => s.(pc := Call)
    case CallStep(c, id, name) =>
      if s.cleaning && s.m.n <= 0 then s.(m := NewCreator(s.m, c, id, name), pc := Tick, cleaning := false)
      else s.(pc := Tick)
    case TickStep(now) => s.(m := s.m.(now := now), pc := Check)
    case AcquireStep => s.(m := AddUsers(s.m, Writable(s.m.byName, s.m.d).value, 1))
    case ReleaseStep(h) => s.(m := AddUsers(s.m, h, -1), pending := s.pending + 1)
    case SignalStep => s.(m := SignalRetry(s.m), pending := s.pending - 1)
  }

  // ----- the manager's invariant

  lemma TrigInv(m: Mgr, h: Handle, born: Handle, name: int, ok: bool)
    requires Inv(m) && Triggerable(m, h, born)
    ensures Inv(Trig(m, h, born, name, ok))
  {
    match m.d[h].si.trigger
    case ForkT => ForkInv(m, h, ok);
    case DumpingT => DumpStartInv(m, h);
    case HaltingT => HaltInv(m, h);
    case EndT => EndInv(m, h);
    case CreateT => CreateInv(m, h, born, name);
  }

  lemma StepInv(s: State, st: Step)
    requires Inv(s.m) && Enabled(s, st)
    ensures Inv(Apply(s, st).m)
  {
    match st
    case CheckStep => TooHeavyInv(s.m);
    case DeleteStep => DeleteCreatorInv(s.m);
    case FireStep(h, born, name, ok) => TrigInv(s.m, h, born, name, ok);
    case CallStep(c, id, name) => if s.cleaning && s.m.n <= 0 { NewCreatorInv(s.m, c, id, name); }
    case AcquireStep =>
      WritableFacts(s.m.byName, s.m.d);
      UsersInv(s.m, Writable(s.m.byName, s.m.d).value, 1);
    case ReleaseStep(h) => UsersInv(s.m, h, -1);
    case SignalStep => SignalInv(s.m);
    case _ =>
  }

  /** Whatever is due can be triggered: in particular a descriptor that is to be forked knows what comes after. */
  lemma FireNeverStuck(s: State, born: Handle, name: int, ok: bool)
    requires Inv(s.m) && s.pc.Fire? && born !in s.m.d
    ensures Enabled(s, StopStep) || (s.m.byTimeout != [] && Enabled(s, FireStep(s.m.byTimeout[0], born, name, ok)))
  {
  }

  // ----- the loop that fires due triggers ends

  function Stage(x: Desc): nat {
    if x.creator then 0 else
      match x.si.stat
      case Unforked => 4
      case Normal => 3
      case Cleanup => 3
      case Dumping => 2
      case Halting => 1
  }

  function CreatorsDue(m: Mgr): map<Handle, nat> {
    map h | h in m.d :: if m.d[h].creator && Due(m.d[h].timeout, m.now) then 1 else 0
  }

  function Stages(m: Mgr): map<Handle, nat> {
    map h | h in m.d :: Stage(m.d[h])
  }

  function Dues(m: Mgr): map<Handle, nat> {
    map h | h in m.d :: if Due(m.d[h].timeout, m.now) then 1 else 0
  }

  /** (creators due, lifecycle stages still to come, descriptors due now) goes down in lexicographic order. */
  ghost predicate Less(q: Mgr, m: Mgr) {
    var a, b := Total(m.byName, CreatorsDue(m)), Total(q.byName, CreatorsDue(q));
    var c, d := Total(m.byName, Stages(m)), Total(q.byName, Stages(q));
    var e, f := Total(m.byName, Dues(m)), Total(q.byName, Dues(q));
    b < a || (b == a && (d < c || (d == c && f < e)))
  }

  /** Steps that keep the set of descriptors and touch no creator. */
  ghost predicate Comparable(m: Mgr, q: Mgr) {
    && Lists(m) && q.byName == m.byName && q.d.Keys == m.d.Keys && q.now == m.now
    && forall g :: g in m.d ==> if m.d[g].creator then q.d[g] == m.d[g] else !q.d[g].creator
  }

  lemma CreatorsKept(m: Mgr, q: Mgr)
    requires Comparable(m, q)
    ensures Total(m.byName, CreatorsDue(q)) == Total(m.byName, CreatorsDue(m))
  {
    TotalLess(m.byName, CreatorsDue(m), CreatorsDue(q));
    TotalLess(m.byName, CreatorsDue(q), CreatorsDue(m));
  }

  lemma StagesLess(m: Mgr, q: Mgr)
    requires Lists(m) && q.d.Keys == m.d.Keys && forall g :: g in m.d ==> Stage(q.d[g]) <= Stage(m.d[g])
    ensures Total(m.byName, Stages(q)) <= Total(m.byName, Stages(m))
    ensures (exists h :: h in m.d && Stage(q.d[h]) < Stage(m.d[h])) ==>
              Total(m.byName, Stages(q)) < Total(m.byName, Stages(m))
  {
    TotalLess(m.byName, Stages(m), Stages(q));
    if h :| h in m.d && Stage(q.d[h]) < Stage(m.d[h]) {
      assert h in m.byName && Weight(Stages(q), h) < Weight(Stages(m), h);
    }
  }

  lemma DuesLess(m: Mgr, q: Mgr, h: Handle)
    requires Lists(m) && q.d.Keys == m.d.Keys && q.now == m.now && IsDue(m, h) && !IsDue(q, h)
    requires forall g :: g in m.d && g != h ==> q.d[g] == m.d[g]
    ensures Total(m.byName, Dues(q)) < Total(m.byName, Dues(m))
  {
    assert h in m.byName && Weight(Dues(q), h) < Weight(Dues(m), h);
    TotalLess(m.byName, Dues(m), Dues(q));
  }

  lemma LessByStage(m: Mgr, q: Mgr, h: Handle)
    requires Comparable(m, q) && h in m.d && Stage(q.d[h]) < Stage(m.d[h])
    requires forall g :: g in m.d ==> Stage(q.d[g]) <= Stage(m.d[g])
    ensures Less(q, m)
  {
    CreatorsKept(m, q);
    StagesLess(m, q);
  }

  lemma LessByDue(m: Mgr, q: Mgr, h: Handle)
    requires Comparable(m, q) && IsDue(m, h) && !IsDue(q, h) && Stage(q.d[h]) == Stage(m.d[h])
    requires forall g :: g in m.d && g != h ==> q.d[g] == m.d[g]
    ensures Less(q, m)
  {
    assert Total(m.byName, CreatorsDue(q)) == Total(m.byName, CreatorsDue(m)) by { CreatorsKept(m, q); }
    assert Total(m.byName, Stages(q)) <= Total(m.byName, Stages(m)) by { StagesLess(m, q); }
    assert Total(m.byName, Dues(q)) < Total(m.byName, Dues(m)) by { DuesLess(m, q, h); }
  }

  lemma ForkLess(m: Mgr, h: Handle, ok: bool)
    requires Inv(m) && ClockOk(m.now) && IsDue(m, h) && m.d[h].si.trigger.ForkT?
    ensures Less(Fork(m, h, ok), m)
  {
    LaterNotDue(FORK_RETRY, m.now);
    if ok { LessByStage(m, Fork(m, h, ok), h); } else { LessByDue(m, Fork(m, h, ok), h); }
  }

  lemma DumpStartLess(m: Mgr, h: Handle)
    requires Inv(m) && ClockOk(m.now) && IsDue(m, h) && m.d[h].si.trigger.DumpingT?
    ensures Less(DumpStart(m, h), m)
  {
    if Granted(m, h) {
      LessByStage(m, DumpStart(m, h), h);
    } else {
      RefusedLess(m, h);
    }
  }

  lemma RefusedLess(m: Mgr, h: Handle)
    requires Inv(m) && ClockOk(m.now) && IsDue(m, h) && m.d[h].si.trigger.DumpingT? && !Granted(m, h)
    ensures Less(DumpStart(m, h), m)
  {
    LaterNotDue(FOREVER, m.now);
    LessByDue(m, DumpStart(m, h), h);
  }

  lemma HaltLess(m: Mgr, h: Handle)
    requires Inv(m) && ClockOk(m.now) && IsDue(m, h) && m.d[h].si.trigger.HaltingT?
    ensures Less(Halt(m, h), m)
  {
    if m.d[h].users == 0 {
      HaltWakes(m, h);
      LessByStage(m, Halt(m, h), h);
    } else {
      ParkedLess(m, h);
    }
  }

  lemma ParkedLess(m: Mgr, h: Handle)
    requires Inv(m) && ClockOk(m.now) && IsDue(m, h) && m.d[h].si.trigger.HaltingT? && m.d[h].users > 0
    ensures Less(Halt(m, h), m)
  {
    LaterNotDue(FOREVER, m.now);
    LessByDue(m, Halt(m, h), h);
  }

  /** A descriptor whose record does not change weighs the same. */
  lemma WeightsKept(m: Mgr, q: Mgr, s: seq<Handle>)
    requires q.now == m.now && forall g :: g in s ==> g in m.d && g in q.d && q.d[g] == m.d[g]
    ensures Total(s, CreatorsDue(q)) == Total(s, CreatorsDue(m)) && Total(s, Stages(q)) == Total(s, Stages(m))
  {
    TotalLess(s, CreatorsDue(m), CreatorsDue(q));
    TotalLess(s, CreatorsDue(q), CreatorsDue(m));
    TotalLess(s, Stages(m), Stages(q));
    TotalLess(s, Stages(q), Stages(m));
  }

  lemma EndLess(m: Mgr, h: Handle)
    requires Lists(m) && h in m.d && !m.d[h].creator && 0 < Stage(m.d[h])
    ensures Less(Del(m, h), m)
  {
    var q := Del(m, h);
    assert h in m.byName;
    RemoveFacts(m.byName, h);
    WeightsKept(m, q, q.byName);
    TotalRemove(m.byName, h, CreatorsDue(m));
    TotalRemove(m.byName, h, Stages(m));
  }

  lemma CreatorSum(m: Mgr, q: Mgr, s: seq<Handle>, c: Handle)
    requires c in s && IsDue(m, c) && m.d[c].creator && c in q.d && !IsDue(q, c) && q.now == m.now
    requires forall g :: g in s && g != c ==> g in m.d && g in q.d && q.d[g] == m.d[g]
    ensures Total(s, CreatorsDue(q)) < Total(s, CreatorsDue(m))
  {
    assert Weight(CreatorsDue(q), c) < Weight(CreatorsDue(m), c);
    TotalLess(s, CreatorsDue(m), CreatorsDue(q));
  }

  lemma CreateLess(m: Mgr, c: Handle, h: Handle, name: int)
    requires Lists(m) && 0 < m.age && ClockOk(m.now) && IsDue(m, c) && h !in m.d && m.d[c].creator
    ensures Less(Create(m, c, h, name), m)
  {
    var q := Create(m, c, h, name);
    CreateFacts(m, c, h, name);
    LaterNotDue(m.age * 60, m.now);
    assert c in m.byName && h !in m.byName;
    CreatorSum(m, q, m.byName, c);
    var d := m.d[h := NewDesc(m.d[c].id, name, m.age)];
    TotalSplit(m.byName, Pos(m.byName, d, ByName, Key(d, ByName, h)), h, CreatorsDue(q));
    assert Weight(CreatorsDue(q), h) == 0;
  }

  /** Every trigger fired on a due descriptor makes the measure smaller, although giving the dump slot back makes
      parked descriptors due again and the creator adds one. */
  lemma TrigLess(m: Mgr, h: Handle, born: Handle, name: int, ok: bool)
    requires Inv(m) && ClockOk(m.now) && IsDue(m, h) && Triggerable(m, h, born)
    ensures Less(Trig(m, h, born, name, ok), m)
  {
    match m.d[h].si.trigger
    case ForkT => ForkLess(m, h, ok);
    case DumpingT => DumpStartLess(m, h);
    case HaltingT => HaltLess(m, h);
    case EndT => EndLess(m, h);
    case CreateT => CreateLess(m, h, born, name);
  }
}
