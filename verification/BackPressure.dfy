/** The number of mem-servers stays within its bound, over any number of passes of the main loop and whatever the
    other threads do: there is one creator, or none while the server cleans up. */
module BackPressure {
  import opened Ordered
  import opened Times
  import opened Descriptors
  import opened Lifecycle
  import opened LifecycleInv
  import opened MainLoop

  ghost function Creators(m: Mgr): set<Handle> {
    set h | h in m.d && m.d[h].creator
  }

  /** Before triggers fire, a creator that is due has room for one more: it fires at most once in a pass. */
  ghost predicate Room(m: Mgr) {
    forall c :: c in Creators(m) && IsDue(m, c) ==> m.n < m.max
  }

  ghost predicate Bounded(s: State, b: int) {
    && 1 <= s.m.max <= b && s.m.n <= b && ClockOk(s.m.now)
    && (if s.cleaning then Creators(s.m) == {} else exists c :: Creators(s.m) == {c})
    && (s.pc.Fire? ==> Room(s.m))
  }

  /** q has the same creators with the same timeouts, and no more descriptors. */
  ghost predicate CreatorsKept(m: Mgr, q: Mgr) {
    && Creators(q) == Creators(m) && q.n <= m.n && q.max == m.max && q.now == m.now
    && forall c :: c in Creators(m) ==> q.d[c].timeout == m.d[c].timeout
  }

  lemma KeptBounded(s: State, q: Mgr, b: int)
    requires Bounded(s, b) && CreatorsKept(s.m, q)
    ensures Bounded(s.(m := q), b) && (Room(s.m) ==> Room(q))
  {
    assert Creators(q) == Creators(s.m);
  }

  lemma OneKept(m: Mgr, q: Mgr, h: Handle, x: Desc)
    requires h in m.d && !m.d[h].creator && !x.creator && q.d == m.d[h := x]
    requires q.n == m.n && q.max == m.max && q.now == m.now
    ensures CreatorsKept(m, q)
  {
    assert Creators(q) == Creators(m);
  }

  lemma HaltKeeps(m: Mgr, h: Handle)
    requires Inv(m) && h in m.d && m.d[h].si.trigger.HaltingT? && m.d[h].users == 0
    ensures CreatorsKept(m, Halt(m, h))
  {
    HaltWakes(m, h);
    SignalKeeps(m);
    assert Creators(Halt(m, h)) == Creators(m);
  }

  lemma TrigKeeps(m: Mgr, h: Handle, born: Handle, name: int, ok: bool)
    requires Inv(m) && Triggerable(m, h, born) && !m.d[h].si.trigger.CreateT?
    ensures CreatorsKept(m, Trig(m, h, born, name, ok))
  {
    var q := Trig(m, h, born, name, ok);
    match m.d[h].si.trigger
    case ForkT => OneKept(m, q, h, q.d[h]);
    case DumpingT => OneKept(m, q, h, q.d[h]);
    case HaltingT => if m.d[h].users == 0 { HaltKeeps(m, h); } else { OneKept(m, q, h, q.d[h]); }
    case EndT => assert Creators(q) == Creators(m);
  }

  lemma SignalKeeps(m: Mgr)
    requires Inv(m)
    ensures CreatorsKept(m, SignalRetry(m))
    ensures forall c :: c in Creators(m) ==> !m.d[c].si.retry
  {
    SignalWakesAll(m);
    forall c | c in Creators(m) ensures !m.d[c].si.retry {
      assert DescOk(m.d[c], m.age);
    }
  }

  lemma CreatedCreators(m: Mgr, c: Handle, h: Handle, name: int, q: Mgr)
    requires c in m.d && h !in m.d && m.d[c].creator && Created(m, c, h, name, q) && 0 < m.age && ClockOk(m.now)
    ensures Creators(q) == Creators(m) && q.n == m.n + 1 && q.max == m.max && q.now == m.now && !IsDue(q, c)
  {
    LaterNotDue(m.age * 60, m.now);
  }

  lemma CreateBounded(s: State, c: Handle, born: Handle, name: int, b: int)
    requires Bounded(s, b) && s.pc.Fire? && IsDue(s.m, c) && s.m.d[c].creator && born !in s.m.d && 0 < s.m.age
    ensures Bounded(s.(m := Create(s.m, c, born, name)), b)
  {
    var q := Create(s.m, c, born, name);
    CreateFacts(s.m, c, born, name);
    CreatedCreators(s.m, c, born, name, q);
    assert c in Creators(s.m);
    assert Creators(q) == {c};
  }

  lemma HeavyCreators(m: Mgr)
    ensures Creators(TooHeavy(m)) == Creators(m) && TooHeavy(m).n == m.n
  {
    WritableFacts(m.byName, m.d);
  }

  lemma DeletedCreators(m: Mgr, c: Handle)
    requires Lists(m) && (Creators(m) == {} || Creators(m) == {c})
    ensures Creators(DeleteCreator(m)) == {} && DeleteCreator(m).n <= m.n
  {
    FirstCreatorFacts(m.byName, m.d);
    assert c in Creators(m) ==> c in m.byName;
    var o := FirstCreator(m.byName, m.d);
    assert o.Some? ==> o.value in Creators(m);
  }

  lemma CheckBounded(s: State, b: int)
    requires Bounded(s, b) && s.pc.Check?
    ensures Bounded(Apply(s, CheckStep), b)
  {
    HeavyCreators(s.m);
  }

  lemma DeleteBounded(s: State, b: int)
    requires Inv(s.m) && Bounded(s, b) && s.pc.Delete?
    ensures Bounded(Apply(s, DeleteStep), b)
  {
    var c: Handle := 0;
    if !s.cleaning { c :| Creators(s.m) == {c}; }
    DeletedCreators(s.m, c);
  }

  lemma CallBounded(s: State, c: Handle, id: int, name: int, b: int)
    requires Inv(s.m) && Bounded(s, b) && Enabled(s, CallStep(c, id, name))
    ensures Bounded(Apply(s, CallStep(c, id, name)), b)
  {
    if s.cleaning && s.m.n <= 0 {
      assert Creators(NewCreator(s.m, c, id, name)) == {c};
    }
  }

  /** Every step keeps the bound. */
  lemma StepBounded(s: State, st: Step, b: int)
    requires Inv(s.m) && Bounded(s, b) && Enabled(s, st)
    ensures Bounded(Apply(s, st), b)
  {
    match st
    case CheckStep => CheckBounded(s, b);
    case DeleteStep => DeleteBounded(s, b);
    case FireStep(h, born, name, ok) =>
      assert DescOk(s.m.d[h], s.m.age);
      if s.m.d[h].si.trigger.CreateT? {
        CreateBounded(s, h, born, name, b);
      } else {
        TrigKeeps(s.m, h, born, name, ok);
        KeptBounded(s, Apply(s, st).m, b);
      }
    case CallStep(c, id, name) => CallBounded(s, c, id, name, b);
    case TickStep(now) => assert Creators(s.m.(now := now)) == Creators(s.m);
    case AcquireStep => UsersKeep(s.m, Writable(s.m.byName, s.m.d).value, 1); KeptBounded(s, Apply(s, st).m, b);
    case ReleaseStep(h) => UsersKeep(s.m, h, -1); KeptBounded(s, Apply(s, st).m, b);
    case SignalStep => SignalKeeps(s.m); KeptBounded(s, Apply(s, st).m, b);
    case StopStep =>
  }

  lemma UsersKeep(m: Mgr, h: Handle, k: int)
    requires h in m.d
    ensures CreatorsKept(m, AddUsers(m, h, k))
  {
    assert Creators(AddUsers(m, h, k)) == Creators(m);
  }

  ghost predicate StepAt(ss: seq<State>, sts: seq<Step>, i: nat) {
    i + 1 < |ss| && i < |sts| && Enabled(ss[i], sts[i]) && ss[i + 1] == Apply(ss[i], sts[i])
  }

  ghost predicate IsRun(ss: seq<State>, sts: seq<Step>) {
    |ss| == |sts| + 1 && forall i: nat :: i < |sts| ==> StepAt(ss, sts, i)
  }

  lemma {:induction false} RunBounded(ss: seq<State>, sts: seq<Step>, i: nat, b: int)
    requires IsRun(ss, sts) && i < |ss| && Inv(ss[0].m) && Bounded(ss[0], b)
    ensures Inv(ss[i].m) && Bounded(ss[i], b)
    ensures ss[i].m.n <= b && |Creators(ss[i].m)| <= 1
  {
    if i > 0 {
      RunBounded(ss, sts, i - 1, b);
      assert StepAt(ss, sts, i - 1);
      StepInv(ss[i - 1], sts[i - 1]);
      StepBounded(ss[i - 1], sts[i - 1], b);
    }
    if !ss[i].cleaning {
      var c :| Creators(ss[i].m) == {c};
    }
  }

  // ----- the writable flag

  /** Takes writes, or may yet be forked and then take them. */
  predicate MayWrite(x: Desc) {
    x.si.w || x.si.stat.Unforked?
  }

  lemma HaltWritable(m: Mgr, g: Handle, h: Handle)
    requires Inv(m) && g in m.d && m.d[g].si.trigger.HaltingT? && !MayWrite(m.d[g]) && h in m.d && !MayWrite(m.d[h])
    ensures h in Halt(m, g).d ==> !MayWrite(Halt(m, g).d[h])
  {
    if m.d[g].users == 0 { HaltWakes(m, g); }
  }

  lemma TrigWritable(m: Mgr, g: Handle, born: Handle, name: int, ok: bool, h: Handle)
    requires Inv(m) && Triggerable(m, g, born) && h in m.d && !MayWrite(m.d[h])
    ensures var q := Trig(m, g, born, name, ok); h in q.d ==> !MayWrite(q.d[h])
  {
    assert DescOk(m.d[g], m.age);
    match m.d[g].si.trigger
    case ForkT =>
    case DumpingT =>
    case HaltingT => HaltWritable(m, g, h);
    case EndT =>
    case CreateT => CreateFacts(m, g, born, name);
  }

  /** A mem-server that has stopped taking writes, for whatever reason, never takes them again: only fork sets the
      flag, and fork happens once. */
  lemma WritableNeverRegained(s: State, st: Step, h: Handle)
    requires Inv(s.m) && Enabled(s, st) && h in s.m.d && h in Apply(s, st).m.d && !MayWrite(s.m.d[h])
    ensures !MayWrite(Apply(s, st).m.d[h])
  {
    match st
    case FireStep(g, born, name, ok) => TrigWritable(s.m, g, born, name, ok, h);
    case SignalStep => SignalWakesAll(s.m);
    case CheckStep => WritableFacts(s.m.byName, s.m.d);
    case _ =>
  }
}
