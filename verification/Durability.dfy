/** No package that a client was told is stored gets lost, and none is published twice: at every moment, what was
    published together with what waits in the logs of the mem-servers that are not published yet is exactly what was ever
    written to a log; and that is what was answered, what failed after it was written, and what is about to be
    answered. */
module Durability {
  import opened Ordered
  import opened Descriptors
  import L = Lifecycle
  import ML = MainLoop
  import DC = DumpCycle
  import opened LoopChange
  import opened Cluster
  import CR = ClusterRuns

  // ----- sums of logs over a list

  function LogOf<P>(f: map<Handle, seq<P>>, h: Handle): seq<P> {
    if h in f then f[h] else []
  }

  ghost function Sum<P>(hs: seq<Handle>, f: map<Handle, seq<P>>): multiset<P> {
    if hs == [] then multiset{} else multiset(LogOf(f, hs[0])) + Sum(hs[1..], f)
  }

  lemma {:induction false} SumSame<P>(hs: seq<Handle>, f: map<Handle, seq<P>>, g: map<Handle, seq<P>>)
    requires forall h :: h in hs ==> LogOf(f, h) == LogOf(g, h)
    ensures Sum(hs, f) == Sum(hs, g)
  {
    if hs != [] {
      SumSame(hs[1..], f, g);
    }
  }

  lemma {:induction false} SumInsert<P>(hs: seq<Handle>, i: nat, h: Handle, f: map<Handle, seq<P>>)
    requires i <= |hs|
    ensures Sum(InsertAt(hs, i, h), f) == Sum(hs, f) + multiset(LogOf(f, h))
  {
    if i == 0 {
      assert InsertAt(hs, 0, h) == [h] + hs;
    } else {
      assert InsertAt(hs, i, h) == [hs[0]] + InsertAt(hs[1..], i - 1, h);
      SumInsert(hs[1..], i - 1, h, f);
    }
  }

  lemma {:induction false} SumRemove<P>(hs: seq<Handle>, h: Handle, f: map<Handle, seq<P>>)
    requires h in hs
    ensures Sum(Remove(hs, h), f) + multiset(LogOf(f, h)) == Sum(hs, f)
  {
    if hs[0] != h {
      SumRemove(hs[1..], h, f);
    }
  }

  /** One log changes. */
  lemma SumChange<P>(hs: seq<Handle>, h: Handle, f: map<Handle, seq<P>>, g: map<Handle, seq<P>>)
    requires h in hs && NoDup(hs) && forall x :: x in hs && x != h ==> LogOf(f, x) == LogOf(g, x)
    ensures Sum(hs, f) + multiset(LogOf(g, h)) == Sum(hs, g) + multiset(LogOf(f, h))
  {
    SumRemove(hs, h, f);
    SumRemove(hs, h, g);
    RemoveFacts(hs, h);
    SumSame(Remove(hs, h), f, g);
  }

  // ----- what is not published yet

  /** After alter_group. */
  predicate Late(ph: DC.Phase) { ph.Wait2? || ph.Copy2? || ph.Ending? }

  /** The replicas' published version includes the log of h already. */
  predicate Published<P>(s: State<P>, h: Handle)
    requires h in M(s).d
  {
    M(s).d[h].si.stat.Halting? ||
    (M(s).d[h].si.stat.Dumping? &&
      (h in s.phases ==> Late(s.phases[h])))
  }

  /** What of h's log is still to be published. */
  function Waits<P>(s: State<P>, h: Handle): seq<P> {
    if h in M(s).d && !Published(s, h) then Log(s, h) else []
  }

  function Waiting<P>(s: State<P>): map<Handle, seq<P>> {
    map h | h in M(s).d :: Waits(s, h)
  }

  lemma WaitingIs<P>(s: State<P>)
    ensures forall h :: LogOf(Waiting(s), h) == Waits(s, h)
  {
  }

  /** Every package the server answers for. */
  ghost function Held<P>(s: State<P>): multiset<P> {
    multiset(s.history) + Sum(M(s).byName, Waiting(s))
  }

  /** What a step writes to a log. */
  ghost function Logged<P>(s: State<P>, st: Step<P>): multiset<P> {
    if st.WriteStep? && st.j in s.jobs then multiset{s.jobs[st.j].pkg} else multiset{}
  }

  ghost predicate Listed<P>(s: State<P>) {
    NoDup(M(s).byName) && forall h :: h in M(s).byName <==> h in M(s).d
  }

  lemma InvListed<P>(s: State<P>)
    requires L.Inv(M(s))
    ensures Listed(s)
  {
  }

  // ----- each kind of step

  lemma SameSum<P>(s: State<P>, t: State<P>, hs: seq<Handle>)
    requires forall h :: Waits(t, h) == Waits(s, h)
    ensures Sum(hs, Waiting(t)) == Sum(hs, Waiting(s))
  {
    WaitingIs(s);
    WaitingIs(t);
    SumSame(hs, Waiting(s), Waiting(t));
  }

  lemma SameHeld<P>(s: State<P>, t: State<P>)
    requires M(t).byName == M(s).byName && t.history == s.history
    requires forall h :: Waits(t, h) == Waits(s, h)
    ensures Held(t) == Held(s)
  {
    SameSum(s, t, M(s).byName);
  }

  /** One mem-server's waiting packages change from `was` to `now`. */
  lemma OneSum<P>(s: State<P>, t: State<P>, h: Handle, was: seq<P>, now: seq<P>)
    requires Listed(s) && h in M(s).d && forall x :: x != h ==> Waits(t, x) == Waits(s, x)
    requires Waits(s, h) == was && Waits(t, h) == now
    ensures Sum(M(s).byName, Waiting(s)) + multiset(now) == Sum(M(s).byName, Waiting(t)) + multiset(was)
  {
    WaitingIs(s);
    WaitingIs(t);
    SumChange(M(s).byName, h, Waiting(s), Waiting(t));
  }

  lemma OtherWaits<P>(s: State<P>, t: State<P>, c: Change, h: Handle)
    requires Exporters(s) && LogsKept(s, t) && LoopEffect(s, t, c) && !About(c, h)
    ensures Waits(t, h) == Waits(s, h)
  {
  }

  lemma SubjectWaits<P>(s: State<P>, t: State<P>, c: Change)
    requires Own(s) && LogsKept(s, t) && LoopEffect(s, t, c) && !c.Same?
    ensures Waits(t, c.h) == Waits(s, c.h)
    ensures c.Removed? || c.Added? ==> Waits(t, c.h) == []
  {
    if c.Removed? || c.Added? {
      KeyWaits(s, t, c);
    } else {
      StateWaits(s, t, c);
    }
  }

  lemma KeyWaits<P>(s: State<P>, t: State<P>, c: Change)
    requires Own(s) && LogsKept(s, t) && LoopEffect(s, t, c) && (c.Removed? || c.Added?)
    ensures Waits(t, c.h) == Waits(s, c.h) == []
  {
    if c.Removed? { NoUserNoJob(s, c.h); }
  }

  /** A change of state leaves what was published published. */
  lemma StateWaits<P>(s: State<P>, t: State<P>, c: Change)
    requires Exporters(s) && Users(s) && LogsKept(s, t) && LoopEffect(s, t, c)
    requires c.Forked? || c.DumpBegun? || c.DumpEnded?
    ensures Waits(t, c.h) == Waits(s, c.h)
  {
    assert c.h in M(s).d && c.h in M(t).d && Log(t, c.h) == Log(s, c.h);
    assert Published(t, c.h) <==> Published(s, c.h) by { StatePublished(s, t, c); }
  }

  lemma StatePublished<P>(s: State<P>, t: State<P>, c: Change)
    requires Users(s) && LoopEffect(s, t, c) && (c.Forked? || c.DumpBegun? || c.DumpEnded?)
    ensures c.h in M(s).d && c.h in M(t).d && (Published(t, c.h) <==> Published(s, c.h))
  {
    if c.DumpBegun? || c.DumpEnded? { NoUserNoJob(s, c.h); }
  }

  /** Removing a published or empty log, adding an empty one, or a change of state: nothing moves. */
  lemma LoopHeld<P>(s: State<P>, t: State<P>, c: Change)
    requires Listed(s) && KeyChange(M(s), M(t), c) && t.history == s.history
    requires forall h :: Waits(t, h) == Waits(s, h)
    requires c.Removed? || c.Added? ==> Waits(t, c.h) == []
    ensures Held(t) == Held(s)
  {
    WaitingIs(t);
    SameSum(s, t, M(s).byName);
    match c
    case Removed(h) => SumRemove(M(s).byName, h, Waiting(t));
    case Added(h, i) => SumInsert(M(s).byName, i, h, Waiting(t));
    case _ =>
  }

  lemma LoopConserves<P>(s: State<P>, ls: ML.Step)
    requires Inv(s) && Enabled(s, LoopStep(ls))
    ensures Held(Apply(s, LoopStep(ls))) == Held(s)
  {
    var t, c := Apply(s, LoopStep(ls)), StepChange(s.loop, ls);
    LoopStepEffect(s, ls);
    assert LogsKept(s, t) by { LoopFiled(s, ls); }
    InvListed(s);
    if !c.Same? { SubjectWaits(s, t, c); }
    forall h ensures Waits(t, h) == Waits(s, h) {
      if !About(c, h) { OtherWaits(s, t, c, h); }
    }
    LoopHeld(s, t, c);
  }

  lemma Cancel<P>(a: multiset<P>, b: multiset<P>, c: multiset<P>)
    requires a + c == b + c
    ensures a == b
  {
    forall x ensures a[x] == b[x] {
      assert (a + c)[x] == (b + c)[x];
    }
  }

  lemma Grown<P>(history: seq<P>, a: multiset<P>, b: multiset<P>, log: seq<P>, pkg: P)
    requires a + multiset(log + [pkg]) == b + multiset(log)
    ensures multiset(history) + b == multiset(history) + a + multiset{pkg}
  {
    assert multiset(log + [pkg]) == multiset(log) + multiset{pkg};
    Cancel(a + multiset{pkg}, b, multiset(log));
  }

  lemma Shifted<P>(history: seq<P>, a: multiset<P>, b: multiset<P>, log: seq<P>)
    requires a + multiset([]) == b + multiset(log)
    ensures multiset(history + log) + b == multiset(history) + a
  {
    assert a == b + multiset(log);
  }

  lemma WriteConserves<P>(s: State<P>, t: State<P>, h: Handle, pkg: P)
    requires Listed(s) && h in M(s).d && M(s).d[h].si.stat.Normal?
    requires t.loop == s.loop && t.phases == s.phases && t.history == s.history
    requires Log(t, h) == Log(s, h) + [pkg] && forall g :: g != h ==> Log(t, g) == Log(s, g)
    ensures Held(t) == Held(s) + multiset{pkg}
  {
    OneSum(s, t, h, Log(s, h), Log(s, h) + [pkg]);
    Grown(s.history, Sum(M(s).byName, Waiting(s)), Sum(M(s).byName, Waiting(t)), Log(s, h), pkg);
  }

  /** alter_group publishes the log: it leaves the waiting ones and joins the published version, whole. */
  lemma AlterConserves<P>(s: State<P>, t: State<P>, h: Handle)
    requires Listed(s) && h in M(s).d && M(s).d[h].si.stat.Dumping?
    requires h in s.phases && s.phases[h].Copy1?
    requires t.loop == s.loop && t.files == s.files && t.phases == s.phases[h := DC.Wait2(0)]
    requires t.history == s.history + Log(s, h)
    ensures Held(t) == Held(s)
  {
    OneSum(s, t, h, Log(s, h), []);
    Shifted(s.history, Sum(M(s).byName, Waiting(s)), Sum(M(s).byName, Waiting(t)), Log(s, h));
  }

  /** Any other step of the exporter leaves the log on the same side. */
  lemma PhaseConserves<P>(s: State<P>, t: State<P>, h: Handle, ph: DC.Phase)
    requires h in s.phases && (Late(ph) == Late(s.phases[h]) || Log(s, h) == [])
    requires t.loop == s.loop && t.files == s.files && t.phases == s.phases[h := ph] && t.history == s.history
    ensures Held(t) == Held(s)
  {
    SameHeld(s, t);
  }

  lemma ExportPhase<P>(c: DC.State<P>, es: DC.Step<P>)
    requires ExporterStep(es) && DC.Enabled(c, es) && 0 < DC.Count(c)
    ensures var t := DC.Apply(c, es);
            && c.run.Some? && t.run.Some?
            && (es.AlterStep? ==> c.run.value.phase.Copy1? && t.run.value.phase == DC.Wait2(0))
            && t.history == (if es.AlterStep? then c.history + c.run.value.log else c.history)
            && (!es.AlterStep? ==> Late(t.run.value.phase) == Late(c.run.value.phase) || c.run.value.log == [])
  {
  }

  lemma ExportConserves<P>(s: State<P>, h: Handle, es: DC.Step<P>)
    requires Base(s) && 0 < |s.pool.infos| && Enabled(s, ExportStep(h, es))
    ensures Held(Apply(s, ExportStep(h, es))) == Held(s)
  {
    var t := Apply(s, ExportStep(h, es));
    InvListed(s);
    ExportPhase(CycleOf(s, h), es);
    if es.AlterStep? {
      AlterConserves(s, t, h);
    } else {
      PhaseConserves(s, t, h, t.phases[h]);
    }
  }

  lemma UsersConserve<P>(s: State<P>, t: State<P>, h: Handle, k: int)
    requires h in M(s).d && M(t) == L.AddUsers(M(s), h, k)
    requires t.files == s.files && t.history == s.history
    requires t.phases == s.phases || (h in s.phases && s.phases[h].Ending? && t.phases == s.phases - {h})
    ensures Held(t) == Held(s)
  {
    SameHeld(s, t);
  }

  ghost predicate Conserves<P>(s: State<P>, st: Step<P>)
    requires Enabled(s, st)
  {
    Held(Apply(s, st)) == Held(s) + Logged(s, st)
  }

  lemma WriteStepConserves<P>(s: State<P>, st: Step<P>)
    requires Base(s) && Filed(s) && st.WriteStep? && Enabled(s, st)
    ensures Conserves(s, st)
  {
    InvListed(s);
    WriteFiled(s, st.j, st.rest);
    WriteConserves(s, Apply(s, st), s.jobs[st.j].h, s.jobs[st.j].pkg);
  }

  /** Taking and giving back mem-servers and bakers moves no package. */
  lemma UserStepConserves<P>(s: State<P>, st: Step<P>)
    requires st.ReceiveStep? || st.ReplyStep? || st.FailStep? || st.DoneStep? || st.ReaderStep?
    requires Enabled(s, st)
    ensures Conserves(s, st)
  {
    match st
    case ReceiveStep(j, pkg) => UsersConserve(s, Apply(s, st), L.Writable(M(s).byName, M(s).d).value, 1);
    case ReplyStep(j) => UsersConserve(s, Apply(s, st), s.jobs[j].h, -1);
    case FailStep(j) => UsersConserve(s, Apply(s, st), s.jobs[j].h, -1);
    case DoneStep(h) => UsersConserve(s, Apply(s, st), h, -1);
    case ReaderStep(rs) => SameHeld(s, Apply(s, st));
  }

  lemma LoopStepConserves<P>(s: State<P>, st: Step<P>)
    requires Inv(s) && st.LoopStep? && Enabled(s, st)
    ensures Conserves(s, st)
  {
    LoopConserves(s, st.ls);
  }

  lemma ExportStepConserves<P>(s: State<P>, st: Step<P>)
    requires Inv(s) && st.ExportStep? && Enabled(s, st)
    ensures Conserves(s, st)
  {
    ExportConserves(s, st.h, st.cs);
  }

  /** Every step of every thread adds exactly what it writes. */
  lemma StepConserves<P>(s: State<P>, st: Step<P>)
    requires Inv(s) && Enabled(s, st)
    ensures Conserves(s, st)
  {
    if st.LoopStep? {
      LoopStepConserves(s, st);
    } else if st.WriteStep? {
      WriteStepConserves(s, st);
    } else if st.ExportStep? {
      ExportStepConserves(s, st);
    } else {
      UserStepConserves(s, st);
    }
  }

  // ----- answers

  ghost function Top(ks: set<nat>): (n: nat)
    ensures forall k :: k in ks ==> k < n
  {
    if ks == {} then 0 else
      var k :| k in ks;
      var n := Top(ks - {k});
      assert forall j :: j in ks ==> j == k || j in ks - {k};
      if k < n then n else k + 1
  }

  /** The package of job j, if it has been written. */
  function WrittenBy<P>(jobs: map<nat, Job<P>>, j: nat): seq<P> {
    if j in jobs && jobs[j].written then [jobs[j].pkg] else []
  }

  ghost function WrittenBelow<P>(jobs: map<nat, Job<P>>, n: nat): multiset<P> {
    if n == 0 then multiset{} else WrittenBelow(jobs, n - 1) + multiset(WrittenBy(jobs, n - 1))
  }

  /** Written, and about to be answered. */
  ghost function InFlight<P>(s: State<P>): multiset<P> {
    WrittenBelow(s.jobs, Top(s.jobs.Keys))
  }

  lemma {:induction false} NoneAbove<P>(jobs: map<nat, Job<P>>, n: nat, m: nat)
    requires n <= m && forall j :: j in jobs ==> j < n
    ensures WrittenBelow(jobs, m) == WrittenBelow(jobs, n)
    decreases m
  {
    if n < m {
      NoneAbove(jobs, n, m - 1);
      assert WrittenBy(jobs, m - 1) == [];
    }
  }

  lemma InFlightIs<P>(s: State<P>, n: nat)
    requires forall j :: j in s.jobs ==> j < n
    ensures InFlight(s) == WrittenBelow(s.jobs, n)
  {
    var k := Top(s.jobs.Keys);
    assert forall j :: j in s.jobs ==> j in s.jobs.Keys;
    if k <= n { NoneAbove(s.jobs, k, n); } else { NoneAbove(s.jobs, n, k); }
  }

  lemma {:induction false} SameBelow<P>(jobs: map<nat, Job<P>>, jobs': map<nat, Job<P>>, n: nat)
    requires forall j: nat :: j < n ==> WrittenBy(jobs', j) == WrittenBy(jobs, j)
    ensures WrittenBelow(jobs', n) == WrittenBelow(jobs, n)
  {
    if n > 0 {
      SameBelow(jobs, jobs', n - 1);
    }
  }

  lemma AddBoth<P>(a: multiset<P>, b: multiset<P>, x: multiset<P>, y: multiset<P>, l: multiset<P>)
    requires a + x == b + y
    ensures (a + l) + x == (b + l) + y
  {
    forall p ensures ((a + l) + x)[p] == ((b + l) + y)[p] {
      assert (a + x)[p] == (b + y)[p];
    }
  }

  lemma SwapLast<P>(a: multiset<P>, x: multiset<P>, y: multiset<P>)
    ensures (a + x) + y == (a + y) + x
  {
  }

  /** One job changes. */
  ghost predicate OneOff<P>(jobs: map<nat, Job<P>>, jobs': map<nat, Job<P>>, i: nat, n: nat) {
    WrittenBelow(jobs', n) + multiset(WrittenBy(jobs, i)) == WrittenBelow(jobs, n) + multiset(WrittenBy(jobs', i))
  }

  lemma OneOffHere<P>(jobs: map<nat, Job<P>>, jobs': map<nat, Job<P>>, i: nat, n: nat)
    requires n == i + 1 && WrittenBelow(jobs', i) == WrittenBelow(jobs, i)
    ensures OneOff(jobs, jobs', i, n)
  {
    SwapLast(WrittenBelow(jobs, i), multiset(WrittenBy(jobs', i)), multiset(WrittenBy(jobs, i)));
  }

  lemma OneOffBelow<P>(jobs: map<nat, Job<P>>, jobs': map<nat, Job<P>>, i: nat, n: nat)
    requires n > 0 && OneOff(jobs, jobs', i, n - 1) && WrittenBy(jobs', n - 1) == WrittenBy(jobs, n - 1)
    ensures OneOff(jobs, jobs', i, n)
  {
    AddBoth(WrittenBelow(jobs', n - 1), WrittenBelow(jobs, n - 1), multiset(WrittenBy(jobs, i)),
            multiset(WrittenBy(jobs', i)), multiset(WrittenBy(jobs, n - 1)));
  }

  lemma {:induction false} OneBelow<P>(jobs: map<nat, Job<P>>, jobs': map<nat, Job<P>>, i: nat, n: nat)
    requires i < n && forall j: nat :: j != i ==> WrittenBy(jobs', j) == WrittenBy(jobs, j)
    ensures OneOff(jobs, jobs', i, n)
  {
    if i == n - 1 {
      SameBelow(jobs, jobs', i);
      OneOffHere(jobs, jobs', i, n);
    } else {
      OneBelow(jobs, jobs', i, n - 1);
      OneOffBelow(jobs, jobs', i, n);
    }
  }

  /** What a step answers as stored. */
  ghost function Answered<P>(s: State<P>, st: Step<P>): multiset<P> {
    if st.ReplyStep? && st.j in s.jobs then multiset{s.jobs[st.j].pkg} else multiset{}
  }

  /** What a step answers with an error although it is stored. */
  ghost function Denied<P>(s: State<P>, st: Step<P>): multiset<P> {
    if st.FailStep? then multiset(WrittenBy(s.jobs, st.j)) else multiset{}
  }

  lemma JobChange<P>(s: State<P>, t: State<P>, i: nat)
    requires forall j: nat :: j != i ==> (j in t.jobs <==> j in s.jobs) && (j in s.jobs ==> t.jobs[j] == s.jobs[j])
    ensures InFlight(t) + multiset(WrittenBy(s.jobs, i)) == InFlight(s) + multiset(WrittenBy(t.jobs, i))
  {
    var n := Top(s.jobs.Keys + t.jobs.Keys + {i});
    assert forall j :: j in s.jobs || j in t.jobs ==> j in s.jobs.Keys + t.jobs.Keys + {i};
    assert i in s.jobs.Keys + t.jobs.Keys + {i};
    InFlightIs(s, n);
    InFlightIs(t, n);
    OneBelow(s.jobs, t.jobs, i, n);
  }

  lemma JobsKept<P>(s: State<P>, st: Step<P>)
    requires Enabled(s, st) && !st.ReceiveStep? && !st.WriteStep? && !st.ReplyStep? && !st.FailStep?
    ensures Apply(s, st).jobs == s.jobs
  {
  }

  /** The mem-server's own answer is given only for what it has written: so what is written is answered, denied, or in
      flight. */
  lemma StepAnswers<P>(s: State<P>, st: Step<P>)
    requires Enabled(s, st)
    ensures InFlight(Apply(s, st)) + (Answered(s, st) + Denied(s, st)) == InFlight(s) + Logged(s, st)
  {
    var t := Apply(s, st);
    match st
    case ReceiveStep(j, pkg) => JobChange(s, t, j);
    case WriteStep(j, _) => JobChange(s, t, j);
    case ReplyStep(j) => JobChange(s, t, j);
    case FailStep(j) => JobChange(s, t, j);
    case _ => JobsKept(s, st);
  }

  // ----- runs

  /** What was written, answered as stored, and denied although stored. */
  datatype Tally<P> = Tally(logged: multiset<P>, answered: multiset<P>, denied: multiset<P>)

  ghost function StepTally<P>(s: State<P>, st: Step<P>): Tally<P> {
    Tally(Logged(s, st), Answered(s, st), Denied(s, st))
  }

  ghost function Plus<P>(t: Tally<P>, u: Tally<P>): Tally<P> {
    Tally(t.logged + u.logged, t.answered + u.answered, t.denied + u.denied)
  }

  /** In the first i steps. */
  ghost function Tallied<P>(ss: seq<State<P>>, sts: seq<Step<P>>, i: nat): Tally<P>
    requires i <= |sts| && i <= |ss|
  {
    if i == 0 then Tally(multiset{}, multiset{}, multiset{})
    else Plus(Tallied(ss, sts, i - 1), StepTally(ss[i - 1], sts[i - 1]))
  }

  /** Held is what it was, and what was written since. */
  ghost predicate Accounted<P>(start: multiset<P>, t: Tally<P>, held: multiset<P>) {
    held == start + t.logged
  }

  lemma AccountedMore<P>(start: multiset<P>, t: Tally<P>, held: multiset<P>, u: Tally<P>, held': multiset<P>)
    requires Accounted(start, t, held) && Accounted(held, u, held')
    ensures Accounted(start, Plus(t, u), held')
  {
  }

  /** What is written, and written before the start, is answered, denied or in flight. */
  ghost predicate Balanced<P>(t: Tally<P>, before: multiset<P>, now: multiset<P>) {
    now + (t.answered + t.denied) == before + t.logged
  }

  lemma BalancedMore<P>(t: Tally<P>, u: Tally<P>, before: multiset<P>, now: multiset<P>, now': multiset<P>)
    requires Balanced(t, before, now) && Balanced(u, now, now')
    ensures Balanced(Plus(t, u), before, now')
  {
    var v := Plus(t, u);
    forall x ensures (now' + (v.answered + v.denied))[x] == (before + v.logged)[x] {
      assert (now + (t.answered + t.denied))[x] == (before + t.logged)[x];
      assert (now' + (u.answered + u.denied))[x] == (now + u.logged)[x];
    }
  }

  ghost predicate BooksAt<P>(ss: seq<State<P>>, sts: seq<Step<P>>, i: nat) {
    && i < |sts| && i + 1 < |ss|
    && Accounted(Held(ss[i]), StepTally(ss[i], sts[i]), Held(ss[i + 1]))
    && Balanced(StepTally(ss[i], sts[i]), InFlight(ss[i]), InFlight(ss[i + 1]))
  }

  lemma BooksKeptAt<P>(ss: seq<State<P>>, sts: seq<Step<P>>, i: nat)
    requires CR.IsRun(ss, sts) && Inv(ss[0]) && i < |sts|
    ensures BooksAt(ss, sts, i)
  {
    CR.RunInv(ss, sts, i);
    assert CR.StepAt(ss, sts, i);
    StepConserves(ss[i], sts[i]);
    StepAnswers(ss[i], sts[i]);
  }

  lemma {:induction false} Accumulates<P>(ss: seq<State<P>>, sts: seq<Step<P>>, i: nat)
    requires |ss| == |sts| + 1 && i < |ss| && forall k: nat :: k < |sts| ==> BooksAt(ss, sts, k)
    ensures Accounted(Held(ss[0]), Tallied(ss, sts, i), Held(ss[i]))
    ensures Balanced(Tallied(ss, sts, i), InFlight(ss[0]), InFlight(ss[i]))
  {
    if i > 0 {
      Accumulates(ss, sts, i - 1);
      AccumulatesOne(ss, sts, i, Tallied(ss, sts, i - 1));
    }
  }

  lemma AccumulatesOne<P>(ss: seq<State<P>>, sts: seq<Step<P>>, i: nat, t: Tally<P>)
    requires 0 < i < |ss| == |sts| + 1 && forall k: nat :: k < |sts| ==> BooksAt(ss, sts, k)
    requires Accounted(Held(ss[0]), t, Held(ss[i - 1])) && Balanced(t, InFlight(ss[0]), InFlight(ss[i - 1]))
    ensures Accounted(Held(ss[0]), Plus(t, StepTally(ss[i - 1], sts[i - 1])), Held(ss[i]))
    ensures Balanced(Plus(t, StepTally(ss[i - 1], sts[i - 1])), InFlight(ss[0]), InFlight(ss[i]))
  {
    var u := StepTally(ss[i - 1], sts[i - 1]);
    assert BooksAt(ss, sts, i - 1);
    AccountedMore(Held(ss[0]), t, Held(ss[i - 1]), u, Held(ss[i]));
    BalancedMore(t, u, InFlight(ss[0]), InFlight(ss[i - 1]), InFlight(ss[i]));
  }

  /** Over any run: published plus waiting is what there was at the start plus what was written since; and what was written
      is what was answered, denied, or is in flight. */
  lemma NothingLost<P>(ss: seq<State<P>>, sts: seq<Step<P>>, i: nat)
    requires CR.IsRun(ss, sts) && Inv(ss[0]) && i < |ss|
    ensures Accounted(Held(ss[0]), Tallied(ss, sts, i), Held(ss[i]))
    ensures Balanced(Tallied(ss, sts, i), InFlight(ss[0]), InFlight(ss[i]))
  {
    forall k: nat | k < |sts| ensures BooksAt(ss, sts, k) { BooksKeptAt(ss, sts, k); }
    Accumulates(ss, sts, i);
  }

  lemma Settled<P>(start: multiset<P>, t: Tally<P>, held: multiset<P>, now: multiset<P>)
    requires Accounted(start, t, held) && Balanced(t, multiset{}, now)
    ensures held == start + (t.answered + t.denied + now) && start + t.answered <= held
    ensures now == multiset{} && t.denied == multiset{} ==> held == start + t.answered
  {
    assert t.logged == now + (t.answered + t.denied);
  }

  /** What the server holds is, at every moment of every run that starts with no job in flight: what it held at the start,
      all that was answered as stored, and besides only what was denied although stored and what is about to be
      answered.  So nothing that a client was told is stored is ever lost, and once no job is in flight and none was
      denied after it was written, the server holds exactly what was answered. */
  lemma AnsweredIsHeld<P>(ss: seq<State<P>>, sts: seq<Step<P>>, i: nat)
    requires CR.IsRun(ss, sts) && Inv(ss[0]) && i < |ss| && ss[0].jobs == map[]
    ensures var t := Tallied(ss, sts, i);
            && Held(ss[i]) == Held(ss[0]) + (t.answered + t.denied + InFlight(ss[i]))
            && Held(ss[0]) + t.answered <= Held(ss[i])
            && (ss[i].jobs == map[] && t.denied == multiset{} ==> Held(ss[i]) == Held(ss[0]) + t.answered)
  {
    NothingLost(ss, sts, i);
    InFlightIs(ss[0], 0);
    if ss[i].jobs == map[] { InFlightIs(ss[i], 0); }
    Settled(Held(ss[0]), Tallied(ss, sts, i), Held(ss[i]), InFlight(ss[i]));
  }

  /** Once nothing waits, what readers are given is exactly what was at the start, what was answered as stored since, and
      what was denied although stored or is about to be answered. */
  lemma DrainedMeansAllPublished<P>(ss: seq<State<P>>, sts: seq<Step<P>>, i: nat)
    requires CR.IsRun(ss, sts) && Inv(ss[0]) && i < |ss| && ss[0].jobs == map[]
    requires forall h :: Waits(ss[i], h) == []
    ensures var t := Tallied(ss, sts, i);
            multiset(ss[i].history) == Held(ss[0]) + (t.answered + t.denied + InFlight(ss[i]))
  {
    AnsweredIsHeld(ss, sts, i);
    NothingWaits(ss[i]);
  }

  lemma NothingWaits<P>(s: State<P>)
    requires forall h :: Waits(s, h) == []
    ensures Held(s) == multiset(s.history)
  {
    WaitingIs(s);
    SumEmpty(M(s).byName, Waiting(s));
  }

  lemma {:induction false} SumEmpty<P>(hs: seq<Handle>, f: map<Handle, seq<P>>)
    requires forall h :: h in hs ==> LogOf(f, h) == []
    ensures Sum(hs, f) == multiset{}
  {
    if hs != [] {
      SumEmpty(hs[1..], f);
    }
  }
}
