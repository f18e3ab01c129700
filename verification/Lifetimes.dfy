/** Mem-servers over time: how long one takes packages, and which ids a creator gives one after the other. */
module Lifetimes {
  import opened Ordered
  import opened Times
  import opened Descriptors
  import opened Lifecycle
  import opened LifecycleInv
  import opened MainLoop
  import opened Effects
  import opened Pending
  import Press = BackPressure

  // ----- what a step leaves of a record that it is not about

  /** Timeout, state and period stay what they are for a record that nobody retries. */
  ghost predicate Undisturbed(m: Mgr, q: Mgr, h: Handle)
    requires h in m.d
  {
    && h in q.d && q.d[h].timeout == m.d[h].timeout && q.d[h].si.retry == m.d[h].si.retry
    && q.d[h].si.stat == m.d[h].si.stat && q.d[h].creator == m.d[h].creator && q.d[h].id == m.d[h].id
    && q.age == m.age
  }

  lemma TrigUndisturbed(m: Mgr, g: Handle, born: Handle, name: int, ok: bool, h: Handle)
    requires Inv(m) && Triggerable(m, g, born) && m.now.sec <= 2147483647
    requires h in m.d && h != g && !m.d[h].si.retry
    ensures Undisturbed(m, Trig(m, g, born, name, ok), h)
  {
    assert DescOk(m.d[g], m.age);
    match m.d[g].si.trigger
    case ForkT => ForkExactly(m, g, ok);
    case DumpingT => DumpStartExactly(m, g);
    case HaltingT => HaltUndisturbed(m, g, h);
    case EndT =>
    case CreateT => CreateExactly(m, g, born, name);
  }

  lemma HaltUndisturbed(m: Mgr, g: Handle, h: Handle)
    requires Inv(m) && g in m.d && m.d[g].si.trigger.HaltingT? && m.now.sec <= 2147483647
    requires h in m.d && h != g && !m.d[h].si.retry
    ensures Undisturbed(m, Halt(m, g), h)
  {
    HaltExactly(m, g);
    if m.d[g].users == 0 {
      assert DescOk(m.d[g], m.age);
      HaltWakes(m, g);
    }
  }

  /** Nothing but its own trigger disturbs one that nobody retries, unless it is a creator. */
  lemma StepUndisturbed(s: State, st: Step, h: Handle)
    requires Inv(s.m) && s.m.now.sec <= 2147483647 && Enabled(s, st) && h in s.m.d
    requires !s.m.d[h].si.retry && !s.m.d[h].creator && Fired(st, h) == 0
    ensures Undisturbed(s.m, Apply(s, st).m, h)
  {
    match st
    case FireStep(g, born, name, ok) => TrigUndisturbed(s.m, g, born, name, ok, h);
    case CheckStep => TooHeavyExactly(s.m);
    case DeleteStep => FirstCreatorFacts(s.m.byName, s.m.d);
    case SignalStep => SignalWakesAll(s.m);
    case CallStep(c, id, name) =>
    case _ =>
  }

  // ----- how long a mem-server takes packages before it is to be dumped

  ghost predicate Clocked(ss: seq<State>) {
    forall i :: 0 <= i < |ss| ==> ClockOk(ss[i].m.now)
  }

  /** It was forked, its timeout is `at`, and nobody retries it. */
  ghost predicate Serving(m: Mgr, h: Handle, at: Time) {
    h in m.d && !m.d[h].creator && m.d[h].si.stat.Normal? && !m.d[h].si.retry && m.d[h].timeout == at
  }

  lemma {:induction false} ServingKept(ss: seq<State>, sts: seq<Step>, i: nat, j: nat, h: Handle, at: Time)
    requires Press.IsRun(ss, sts) && Clocked(ss) && i <= j < |ss| && Inv(ss[i].m) && Serving(ss[i].m, h, at)
    requires Fires(sts, i, j, h) == 0
    ensures Inv(ss[j].m) && Serving(ss[j].m, h, at)
    decreases j
  {
    if i < j {
      ServingKept(ss, sts, i, j - 1, h, at);
      assert Press.StepAt(ss, sts, j - 1);
      StepInv(ss[j - 1], sts[j - 1]);
      StepUndisturbed(ss[j - 1], sts[j - 1], h);
    }
  }

  lemma ForkServes(s: State, st: Step)
    requires Inv(s.m) && ClockOk(s.m.now) && Enabled(s, st)
    requires st.FireStep? && st.ok && s.m.d[st.h].si.trigger.ForkT?
    ensures Inv(Apply(s, st).m) && Serving(Apply(s, st).m, st.h, In(s.m, s.m.age * 60))
  {
    assert DescOk(s.m.d[st.h], s.m.age);
    StepInv(s, st);
    ForkExactly(s.m, st.h, st.ok);
  }

  /** A mem-server that is forked is to be dumped when a period has passed since, and at no time before: whatever else
      happens, as long as its own trigger is not fired, it is due exactly from then on. */
  lemma ServesForAPeriod(ss: seq<State>, sts: seq<Step>, i: nat, j: nat)
    requires Press.IsRun(ss, sts) && Clocked(ss) && i < j < |ss| && Inv(ss[i].m)
    requires sts[i].FireStep? && sts[i].ok && sts[i].h in ss[i].m.d && ss[i].m.d[sts[i].h].si.trigger.ForkT?
    requires ss[i].m.now.sec + ss[i].m.age * 60 <= 2147483647 && Fires(sts, i + 1, j, sts[i].h) == 0
    ensures var h, from, period := sts[i].h, ss[i].m.now, ss[i].m.age * 60;
            && h in ss[j].m.d && ss[j].m.d[h].si.stat.Normal?
            && (IsDue(ss[j].m, h) <==> NotAfter(Time(from.sec + period, from.usec), ss[j].m.now))
  {
    var h, at := sts[i].h, In(ss[i].m, ss[i].m.age * 60);
    assert Press.StepAt(ss, sts, i);
    ForkServes(ss[i], sts[i]);
    ServingKept(ss, sts, i + 1, j, h, at);
    DueIffNotAfter(at, ss[j].m.now);
  }

  // ----- ids

  ghost predicate CreatorAt(m: Mgr, c: Handle, id: int, age: int) {
    c in m.d && m.d[c].creator && m.d[c].id == id && m.age == age
  }

  ghost predicate CreatorShape(m: Mgr, c: Handle) {
    && 0 < m.age && c in m.d && m.d[c].creator && !m.d[c].si.retry
    && m.d[c].si == Instruct(Unforked, false, false, false, m.d[c].si.ttl, CreateT)
  }

  lemma CreatorsShape(m: Mgr, c: Handle)
    requires Inv(m) && c in m.d && m.d[c].creator
    ensures CreatorShape(m, c)
  {
    assert DescOk(m.d[c], m.age);
  }

  lemma FiresCreate(s: State, st: Step, c: Handle)
    requires CreatorShape(s.m, c) && Enabled(s, st) && Fired(st, c) == 1
    ensures st.born !in s.m.d && Apply(s, st).m == Create(s.m, c, st.born, st.name)
  {
  }

  ghost predicate GaveId(m: Mgr, c: Handle, born: Handle, q: Mgr) {
    && c in m.d && c in q.d && born in q.d && q.age == m.age
    && q.d[c].creator && q.d[c].id == m.d[c].id + m.age * 60
    && !q.d[born].creator && q.d[born].id == m.d[c].id
  }

  lemma CreateGivesId(m: Mgr, c: Handle, born: Handle, name: int)
    requires CreatorShape(m, c) && born !in m.d && m.now.sec <= 2147483647
    ensures GaveId(m, c, born, Create(m, c, born, name))
  {
    CreatedWrittenOut(m, c, born, name);
  }

  /** The creator's trigger gives its id away, and moves it on by one period. */
  lemma FiredId(s: State, st: Step, c: Handle)
    requires CreatorShape(s.m, c) && s.m.now.sec <= 2147483647 && Enabled(s, st) && Fired(st, c) == 1
    ensures GaveId(s.m, c, st.born, Apply(s, st).m)
  {
    FiresCreate(s, st, c);
    CreateGivesId(s.m, c, st.born, st.name);
  }

  /** Nothing else does. */
  lemma KeptId(s: State, st: Step, c: Handle)
    requires Inv(s.m) && s.m.now.sec <= 2147483647 && Enabled(s, st) && c in s.m.d && s.m.d[c].creator
    requires Fired(st, c) == 0 && c in Apply(s, st).m.d
    ensures CreatorAt(Apply(s, st).m, c, s.m.d[c].id, s.m.age)
  {
    if st.FireStep? {
      assert !s.m.d[c].si.retry by { assert DescOk(s.m.d[c], s.m.age); }
      TrigUndisturbed(s.m, st.h, st.born, st.name, st.ok, c);
    } else {
      OtherId(s, st, c);
    }
  }

  lemma OtherId(s: State, st: Step, c: Handle)
    requires Inv(s.m) && Enabled(s, st) && !st.FireStep? && c in s.m.d && s.m.d[c].creator && c in Apply(s, st).m.d
    ensures CreatorAt(Apply(s, st).m, c, s.m.d[c].id, s.m.age)
  {
    match st
    case CheckStep => TooHeavyExactly(s.m);
    case SignalStep => SignalWakesAll(s.m);
    case _ =>
  }

  ghost predicate StaysThere(ss: seq<State>, i: nat, j: nat, c: Handle) {
    forall k :: i <= k <= j && k < |ss| ==> c in ss[k].m.d
  }

  /** It moves on by n periods, n being 0 or 1. */
  ghost predicate IdMoves(m: Mgr, q: Mgr, c: Handle, n: nat) {
    && c in m.d && c in q.d && q.d[c].creator && q.age == m.age
    && q.d[c].id == if n == 1 then m.d[c].id + m.age * 60 else m.d[c].id
  }

  lemma StepMovesId(s: State, st: Step, c: Handle)
    requires Inv(s.m) && s.m.now.sec <= 2147483647 && Enabled(s, st) && c in s.m.d && s.m.d[c].creator
    requires c in Apply(s, st).m.d
    ensures IdMoves(s.m, Apply(s, st).m, c, Fired(st, c))
  {
    if Fired(st, c) == 1 {
      CreatorsShape(s.m, c);
      assert GaveId(s.m, c, st.born, Apply(s, st).m) by { FiredId(s, st, c); }
    } else {
      KeptId(s, st, c);
    }
  }

  lemma CreatorMoves(m: Mgr, q: Mgr, c: Handle, id: int, age: int, k: nat, n: nat)
    requires CreatorAt(m, c, CreatorId(id, age, k), age) && IdMoves(m, q, c, n) && n <= 1
    ensures CreatorAt(q, c, CreatorId(id, age, k + n), age)
  {
  }

  lemma {:induction false} IdsOverRun(ss: seq<State>, sts: seq<Step>, i: nat, j: nat, c: Handle, id: int, age: int)
    requires Press.IsRun(ss, sts) && Clocked(ss) && i <= j < |ss| && Inv(ss[i].m) && StaysThere(ss, i, j, c)
    requires CreatorAt(ss[i].m, c, id, age)
    ensures CreatorAt(ss[j].m, c, CreatorId(id, age, Fires(sts, i, j, c)), age)
    decreases j
  {
    if i < j {
      IdsOverRun(ss, sts, i, j - 1, c, id, age);
      InvOverRun(ss, sts, i, j - 1);
      MovesAt(ss, sts, j - 1, c);
      CreatorMoves(ss[j - 1].m, ss[j].m, c, id, age, Fires(sts, i, j - 1, c), Fired(sts[j - 1], c));
    }
  }

  lemma MovesAt(ss: seq<State>, sts: seq<Step>, j: nat, c: Handle)
    requires Press.IsRun(ss, sts) && j < |sts| && Inv(ss[j].m) && ss[j].m.now.sec <= 2147483647
    requires c in ss[j].m.d && ss[j].m.d[c].creator && c in ss[j + 1].m.d
    ensures IdMoves(ss[j].m, ss[j + 1].m, c, Fired(sts[j], c))
  {
    assert Press.StepAt(ss, sts, j);
    StepMovesId(ss[j], sts[j], c);
  }

  lemma {:induction false} InvOverRun(ss: seq<State>, sts: seq<Step>, i: nat, j: nat)
    requires Press.IsRun(ss, sts) && i <= j < |ss| && Inv(ss[i].m)
    ensures Inv(ss[j].m)
    decreases j
  {
    if i < j {
      InvOverRun(ss, sts, i, j - 1);
      assert Press.StepAt(ss, sts, j - 1);
      StepInv(ss[j - 1], sts[j - 1]);
    }
  }

  /** As long as a creator is there, the mem-server that it adds after k others, counted from state i, has the k-th id from
      the one it had then: one period after the other, whatever fires and whoever signals in between. */
  lemma KthId(ss: seq<State>, sts: seq<Step>, i: nat, j: nat, c: Handle)
    requires Press.IsRun(ss, sts) && Clocked(ss) && i <= j < |sts| && Inv(ss[i].m) && StaysThere(ss, i, j + 1, c)
    requires c in ss[i].m.d && ss[i].m.d[c].creator && Fired(sts[j], c) == 1
    ensures var m, b := ss[j + 1].m, sts[j].born;
            b in m.d && !m.d[b].creator && m.d[b].id == CreatorId(ss[i].m.d[c].id, ss[i].m.age, Fires(sts, i, j, c))
  {
    IdsOverRun(ss, sts, i, j, c, ss[i].m.d[c].id, ss[i].m.age);
    InvOverRun(ss, sts, i, j);
    assert Press.StepAt(ss, sts, j);
    CreatorsShape(ss[j].m, c);
    FiredId(ss[j], sts[j], c);
  }
}
