/** The whole server: the main loop and its mem-servers, the jobs that write to them, one exporter thread for each
    dump that was begun, and the replica pool with its readers, interleaved in every possible way.

    The baker manager relies on dump cycles not overlapping and on a log that does not change while it is replayed;
    neither is in its hands.  Here the first is proved from the dump slot, and the second from the user counts and from
    names being distinct, because a package file is found by its mem-server's name. */
module Cluster {
  import opened Ordered
  import opened Descriptors
  import L = Lifecycle
  import LI = LifecycleInv
  import ML = MainLoop
  import opened LoopChange
  import N = Names
  import Fs = Files
  import BP = BakerPool
  import DC = DumpCycle

  /** A job obtained through getWritableMemServer; `written` once the mem-server has put it in its package file.  It ends
      with the mem-server's own answer, which comes after the writing, or with an error if the connection to the
      mem-server fails, and then it may have been written or not. */
  datatype Job<P> = Job(h: Handle, pkg: P, written: bool)

  /** `off` is the offset of local time.  `files` are the package files by name, `offs` where in its file the process of
      each mem-server is. */
  datatype State<P> = State(
    loop: ML.State, off: int,
    pool: BP.Pool, base: seq<seq<P>>, content: seq<seq<P>>, history: seq<P>,
    phases: map<Handle, DC.Phase>,   // the exporter threads
    files: map<int, seq<P>>, offs: map<Handle, nat>,
    jobs: map<nat, Job<P>>)

  datatype Step<P> =
    | LoopStep(ls: ML.Step)
    | ReceiveStep(j: nat, pkg: P)
    | WriteStep(j: nat, rest: seq<P>)
    | ReplyStep(j: nat)
    | FailStep(j: nat)
    | ReaderStep(cs: DC.Step<P>)
    | ExportStep(h: Handle, cs: DC.Step<P>)
    | DoneStep(h: Handle)

  function M<P>(s: State<P>): L.Mgr { s.loop.m }

  /** What a replay of h's package file reads. */
  function Log<P>(s: State<P>, h: Handle): seq<P> { Fs.Log(s.files, M(s), h) }

  /** The pool as the exporter of h sees it. */
  function CycleOf<P>(s: State<P>, h: Handle): DC.State<P>
    requires h in s.phases && h in M(s).d
  {
    DC.State(s.pool, s.base, s.content, s.history, Some(DC.Run(Log(s, h), M(s).d[h].id, s.phases[h])))
  }

  /** The pool with the exporter that has the dump slot, if it is running. */
  function Cycle<P>(s: State<P>): DC.State<P> {
    match M(s).slot
    case Some(h) =>
      if h in s.phases && h in M(s).d then CycleOf(s, h) else DC.State(s.pool, s.base, s.content, s.history, None)
    case None => DC.State(s.pool, s.base, s.content, s.history, None)
  }

  /** A descriptor is about to be given the slot: dumping starts an exporter thread for it. */
  predicate Spawns(s: ML.State, st: ML.Step) {
    st.FireStep? && st.h in s.m.d && s.m.d[st.h].si.trigger.DumpingT? && L.Granted(s.m, st.h)
  }

  predicate ExporterStep<P>(st: DC.Step<P>) {
    st.SkipStep? || st.MoveStep? || st.ScanStep? || st.CopyStep? || st.AlterStep? || st.WToRStep?
  }

  ghost predicate Enabled<P>(s: State<P>, st: Step<P>) {
    match st
    case LoopStep(ls) => OwnStep(ls) && ML.Enabled(s.loop, ls) && 0 < M(s).age && N.Named(s.loop, ls, s.off)
    case ReceiveStep(j, _) => j !in s.jobs && ML.Enabled(s.loop, ML.AcquireStep)
    case WriteStep(j, _) => j in s.jobs && !s.jobs[j].written
    case ReplyStep(j) => j in s.jobs && s.jobs[j].written && ML.Enabled(s.loop, ML.ReleaseStep(s.jobs[j].h))
    case FailStep(j) => j in s.jobs && ML.Enabled(s.loop, ML.ReleaseStep(s.jobs[j].h))
    case ReaderStep(rs) => (rs.AllocStep? || rs.FreeStep?) && DC.Enabled(Cycle(s), rs)
    case ExportStep(h, es) => h in s.phases && h in M(s).d && ExporterStep(es) && DC.Enabled(CycleOf(s, h), es)
    case DoneStep(h) => h in s.phases && s.phases[h].Ending? && ML.Enabled(s.loop, ML.ReleaseStep(h))
  }

  function WithPool<P>(s: State<P>, c: DC.State<P>): State<P> {
    s.(pool := c.pool, content := c.content, history := c.history)
  }

  /** The main loop's step, and what it does to directories and processes. */
  function WithLoop<P>(s: State<P>, loop: ML.State): State<P> {
    s.(loop := loop, files := Fs.Dirs(s.files, M(s), loop.m), offs := Fs.Opened(s.offs, s.files, M(s), loop.m))
  }

  function WithWritten<P>(s: State<P>, j: nat, rest: seq<P>): State<P>
    requires j in s.jobs
  {
    var h, pkg := s.jobs[j].h, s.jobs[j].pkg;
    s.(files := Fs.Written(s.files, s.offs, M(s), h, pkg, rest), offs := Fs.Advanced(s.files, s.offs, M(s), h),
       jobs := s.jobs[j := s.jobs[j].(written := true)])
  }

  ghost function Apply<P>(s: State<P>, st: Step<P>): State<P>
    requires Enabled(s, st)
  {
    match st
    case LoopStep(ls) =>
      WithLoop(s, ML.Apply(s.loop, ls)).(phases := if Spawns(s.loop, ls) then s.phases[ls.h := DC.Begin] else s.phases)
    case ReceiveStep(j, pkg) =>
      s.(loop := ML.Apply(s.loop, ML.AcquireStep),
         jobs := s.jobs[j := Job(L.Writable(M(s).byName, M(s).d).value, pkg, false)])
    case WriteStep(j, rest) => WithWritten(s, j, rest)
    case ReplyStep(j) => s.(loop := ML.Apply(s.loop, ML.ReleaseStep(s.jobs[j].h)), jobs := s.jobs - {j})
    case FailStep(j) => s.(loop := ML.Apply(s.loop, ML.ReleaseStep(s.jobs[j].h)), jobs := s.jobs - {j})
    case ReaderStep(rs) => WithPool(s, DC.Apply(Cycle(s), rs))
    case ExportStep(h, es) =>
      var c := DC.Apply(CycleOf(s, h), es);
      WithPool(s, c).(phases := s.phases[h := c.run.value.phase])
    case DoneStep(h) => s.(loop := ML.Apply(s.loop, ML.ReleaseStep(h)), phases := s.phases - {h})
  }

  // ----- the invariant

  ghost function JobsOn<P>(s: State<P>, h: Handle): set<nat> {
    set j | j in s.jobs && s.jobs[j].h == h
  }

  /** Only the holder of the slot has an exporter. */
  ghost predicate Exporters<P>(s: State<P>) {
    forall h :: h in s.phases ==> h in M(s).d && M(s).slot == Some(h)
  }

  /** Users are the jobs in flight and the exporter, nothing else. */
  ghost predicate Users<P>(s: State<P>) {
    forall h :: h in M(s).d ==> M(s).d[h].users == |JobsOn(s, h)| + if h in s.phases then 1 else 0
  }

  /** A job is on a mem-server that is not dumping yet. */
  ghost predicate Jobs<P>(s: State<P>) {
    forall j :: j in s.jobs ==> s.jobs[j].h in M(s).d && M(s).d[s.jobs[j].h].si.stat.Normal?
  }

  ghost predicate Own<P>(s: State<P>) {
    Exporters(s) && Users(s) && Jobs(s)
  }

  /** What holds whatever the mem-servers are called. */
  ghost predicate Base<P>(s: State<P>) {
    L.Inv(M(s)) && Own(s)
  }

  /** What takes distinct names: every mem-server has its package file for itself. */
  ghost predicate Filed<P>(s: State<P>) {
    N.Unique(s.loop, s.off) && Fs.Tidy(s.files, s.offs, M(s))
  }

  ghost predicate Inv<P>(s: State<P>) {
    Base(s) && Filed(s) && 0 < |s.pool.infos| && DC.Inv(Cycle(s))
  }

  // ----- the server against its two parts

  /** The step of the main loop's model that a step is, if it is one. */
  function LoopMove<P>(s: State<P>, st: Step<P>): Option<ML.Step> {
    match st
    case LoopStep(ls) => Some(ls)
    case ReceiveStep(_, _) => Some(ML.AcquireStep)
    case ReplyStep(j) => if j in s.jobs then Some(ML.ReleaseStep(s.jobs[j].h)) else None
    case FailStep(j) => if j in s.jobs then Some(ML.ReleaseStep(s.jobs[j].h)) else None
    case DoneStep(h) => Some(ML.ReleaseStep(h))
    case _ => None
  }

  /** The step of the dump cycle's model that a step is, if it is one. */
  function CycleMove<P>(s: State<P>, st: Step<P>): Option<DC.Step<P>> {
    match st
    case LoopStep(ls) =>
      if Spawns(s.loop, ls) then Some(DC.Launch(Log(s, ls.h), M(s).d[ls.h].id)) else None
    case ReaderStep(rs) => Some(rs)
    case ExportStep(_, es) => Some(es)
    case DoneStep(_) => Some(DC.FinishStep)
    case _ => None
  }

  ghost predicate LoopRefines<P>(s: State<P>, st: Step<P>, t: State<P>) {
    match LoopMove(s, st)
    case None => t.loop == s.loop
    case Some(ls) => ML.Enabled(s.loop, ls) && t.loop == ML.Apply(s.loop, ls)
  }

  ghost predicate CycleRefines<P>(s: State<P>, st: Step<P>, t: State<P>) {
    match CycleMove(s, st)
    case None => Cycle(t) == Cycle(s)
    case Some(cs) => DC.Enabled(Cycle(s), cs) && Cycle(t) == DC.Apply(Cycle(s), cs)
  }

  // ----- jobs and users

  lemma NoUserNoJob<P>(s: State<P>, h: Handle)
    requires Users(s) && h in M(s).d && M(s).d[h].users == 0
    ensures h !in s.phases && JobsOn(s, h) == {}
    ensures forall j :: j in s.jobs ==> s.jobs[j].h != h
  {
    forall j | j in s.jobs ensures s.jobs[j].h != h {
      assert s.jobs[j].h == h ==> j in JobsOn(s, h);
    }
  }

  /** Exporters never overlap. */
  lemma OneExporter<P>(s: State<P>, g: Handle, h: Handle)
    requires Base(s) && g in s.phases && h in s.phases
    ensures g == h && M(s).d[g].si.stat.Dumping? && 0 < M(s).d[g].users
  {
  }

  // ----- steps of the main loop

  /** A step of the main loop, as the rest of the server feels it. */
  ghost predicate LoopEffect<P>(s: State<P>, t: State<P>, c: Change) {
    && Changed(M(s), M(t), c)
    && t == WithLoop(s, t.loop).(phases := if c.DumpBegun? then s.phases[c.h := DC.Begin] else s.phases)
  }

  lemma LoopStepEffect<P>(s: State<P>, ls: ML.Step)
    requires L.Inv(M(s)) && Enabled(s, LoopStep(ls))
    ensures LoopEffect(s, Apply(s, LoopStep(ls)), StepChange(s.loop, ls))
    ensures var c := StepChange(s.loop, ls);
            (c.DumpBegun? <==> Spawns(s.loop, ls)) && (c.DumpBegun? ==> c.h == ls.h)
  {
    StepChanged(s.loop, ls);
    assert StepChange(s.loop, ls).DumpBegun? <==> Spawns(s.loop, ls);
  }

  lemma SameJobs<P>(s: State<P>, t: State<P>)
    requires forall j :: j in s.jobs || j in t.jobs ==> j in s.jobs && j in t.jobs && s.jobs[j].h == t.jobs[j].h
    ensures forall h :: JobsOn(t, h) == JobsOn(s, h)
  {
    forall h ensures JobsOn(t, h) == JobsOn(s, h) {}
  }

  lemma EffectExporters<P>(s: State<P>, t: State<P>, c: Change)
    requires Exporters(s) && Users(s) && LoopEffect(s, t, c)
    ensures Exporters(t)
  {
    if c.DumpEnded? || c.Removed? {
      NoUserNoJob(s, c.h);
    }
  }

  /** The subject of a change has nobody using it, or is new. */
  lemma SubjectUnused<P>(s: State<P>, m: L.Mgr, c: Change)
    requires Exporters(s) && Users(s) && Jobs(s) && Changed(M(s), m, c) && !c.Same? && !c.Forked?
    ensures JobsOn(s, c.h) == {} && c.h !in s.phases && forall j :: j in s.jobs ==> s.jobs[j].h != c.h
  {
    if !c.Added? {
      NoUserNoJob(s, c.h);
    }
  }

  lemma EffectUsers<P>(s: State<P>, t: State<P>, c: Change)
    requires Users(s) && LoopEffect(s, t, c)
    requires !c.Same? && !c.Forked? ==> JobsOn(s, c.h) == {} && c.h !in s.phases
    ensures Users(t)
  {
    SameJobs(s, t);
  }

  lemma EffectJobs<P>(s: State<P>, t: State<P>, c: Change)
    requires Jobs(s) && LoopEffect(s, t, c)
    requires !c.Same? && !c.Forked? ==> forall j :: j in s.jobs ==> s.jobs[j].h != c.h
    ensures Jobs(t)
  {
  }

  lemma EffectOwn<P>(s: State<P>, t: State<P>, c: Change)
    requires Own(s) && LoopEffect(s, t, c)
    ensures Own(t)
  {
    if !c.Same? && !c.Forked? { SubjectUnused(s, M(t), c); }
    assert Exporters(t) by { EffectExporters(s, t, c); }
    assert Users(t) by { EffectUsers(s, t, c); }
    assert Jobs(t) by { EffectJobs(s, t, c); }
  }

  /** The logs of all that stay are what they were. */
  ghost predicate LogsKept<P>(s: State<P>, t: State<P>) {
    forall h :: h in M(t).d ==> Log(t, h) == if h in M(s).d then Log(s, h) else []
  }

  lemma EffectFiled<P>(s: State<P>, t: State<P>, c: Change)
    requires Filed(s) && LoopEffect(s, t, c) && N.Unique(t.loop, t.off)
    ensures Filed(t) && LogsKept(s, t)
  {
    Fs.ChangeTidy(s.files, s.offs, M(s), M(t), c);
  }

  lemma EffectCycle<P>(s: State<P>, t: State<P>, c: Change)
    requires Own(s) && LoopEffect(s, t, c) && !c.DumpBegun? && LogsKept(s, t)
    requires forall h :: h in s.phases && h in M(s).d ==> !M(s).d[h].creator
    ensures Cycle(t) == Cycle(s)
  {
    if c.DumpEnded? || c.Removed? {
      NoUserNoJob(s, c.h);
    }
  }

  lemma BegunCycle<P>(s: State<P>, t: State<P>, c: Change)
    requires Own(s) && LoopEffect(s, t, c) && c.DumpBegun? && !M(s).d[c.h].creator && LogsKept(s, t)
    ensures Cycle(s).run == None
    ensures Cycle(t) == DC.Apply(Cycle(s), DC.Launch(Log(s, c.h), M(s).d[c.h].id))
  {
  }

  lemma EffectRefines<P>(s: State<P>, t: State<P>, c: Change, ls: ML.Step)
    requires Own(s) && LoopEffect(s, t, c) && LogsKept(s, t)
    requires (c.DumpBegun? <==> Spawns(s.loop, ls)) && (c.DumpBegun? ==> c.h == ls.h)
    requires c.DumpBegun? ==> !M(s).d[c.h].creator
    requires forall h :: h in s.phases && h in M(s).d ==> !M(s).d[h].creator
    ensures CycleRefines(s, LoopStep(ls), t)
  {
    if c.DumpBegun? {
      BegunCycle(s, t, c);
    } else {
      EffectCycle(s, t, c);
    }
  }

  lemma NoCreatorDumps<P>(s: State<P>)
    requires L.Inv(M(s))
    ensures forall h :: h in M(s).d && !M(s).d[h].si.stat.Unforked? ==> !M(s).d[h].creator
  {
    forall h | h in M(s).d && !M(s).d[h].si.stat.Unforked? ensures !M(s).d[h].creator {
      assert L.DescOk(M(s).d[h], M(s).age);
    }
  }

  lemma LoopOwn<P>(s: State<P>, ls: ML.Step)
    requires Base(s) && Enabled(s, LoopStep(ls))
    ensures Own(Apply(s, LoopStep(ls)))
  {
    LoopStepEffect(s, ls);
    EffectOwn(s, Apply(s, LoopStep(ls)), StepChange(s.loop, ls));
  }

  lemma LoopFiled<P>(s: State<P>, ls: ML.Step)
    requires Base(s) && Filed(s) && Enabled(s, LoopStep(ls))
    ensures Filed(Apply(s, LoopStep(ls))) && LogsKept(s, Apply(s, LoopStep(ls)))
  {
    LoopStepEffect(s, ls);
    N.StepUnique(s.loop, ls, s.off);
    EffectFiled(s, Apply(s, LoopStep(ls)), StepChange(s.loop, ls));
  }

  lemma LoopRefinesCycle<P>(s: State<P>, ls: ML.Step)
    requires Base(s) && Filed(s) && Enabled(s, LoopStep(ls))
    ensures CycleRefines(s, LoopStep(ls), Apply(s, LoopStep(ls)))
  {
    var t, c := Apply(s, LoopStep(ls)), StepChange(s.loop, ls);
    LoopStepEffect(s, ls);
    assert LogsKept(s, t) by { LoopFiled(s, ls); }
    NoCreatorDumps(s);
    EffectRefines(s, t, c, ls);
  }

  /** When a dump begins, every job ever obtained for the mem-server has been answered, so what it wrote is in the
      log; and no job will be obtained for it again (WritableNeverRegained). */
  lemma NoWriteInFlight<P>(s: State<P>, st: ML.Step)
    requires L.Inv(M(s)) && Users(s) && Enabled(s, LoopStep(st)) && Spawns(s.loop, st)
    ensures forall j :: j in s.jobs ==> s.jobs[j].h != st.h
    ensures st.h in M(Apply(s, LoopStep(st))).d && !M(Apply(s, LoopStep(st))).d[st.h].si.w
  {
    assert M(s).d[st.h].users == 0;
    NoUserNoJob(s, st.h);
    LI.GrantedInOrder(M(s), st.h);
    assert M(Apply(s, LoopStep(st))) == L.DumpStart(M(s), st.h);
  }

  // ----- the other threads

  ghost predicate UsersAt<P>(s: State<P>, h: Handle)
    requires h in M(s).d
  {
    M(s).d[h].users == |JobsOn(s, h)| + if h in s.phases then 1 else 0
  }

  /** Users move together with the jobs and the exporter that account for them. */
  lemma UsersMoved<P>(s: State<P>, t: State<P>, h: Handle, k: int)
    requires Users(s) && h in M(s).d && M(t) == L.AddUsers(M(s), h, k)
    requires forall g :: g != h ==> JobsOn(t, g) == JobsOn(s, g) && (g in t.phases <==> g in s.phases)
    requires |JobsOn(t, h)| + (if h in t.phases then 1 else 0) ==
             |JobsOn(s, h)| + (if h in s.phases then 1 else 0) + k
    ensures Users(t)
  {
    forall g | g in M(t).d ensures UsersAt(t, g) {
      assert UsersAt(s, g);
    }
  }

  lemma JobsMoved<P>(s: State<P>, t: State<P>, h: Handle, k: int)
    requires Jobs(s) && h in M(s).d && M(t) == L.AddUsers(M(s), h, k)
    requires forall j :: j in t.jobs ==> (j in s.jobs && t.jobs[j].h == s.jobs[j].h) ||
                                         (t.jobs[j].h == h && M(s).d[h].si.stat.Normal?)
    ensures Jobs(t)
  {
    forall j | j in t.jobs ensures t.jobs[j].h in M(t).d && M(t).d[t.jobs[j].h].si.stat.Normal? {
      if j in s.jobs && t.jobs[j].h == s.jobs[j].h {
        assert s.jobs[j].h in M(s).d && M(s).d[s.jobs[j].h].si.stat.Normal?;
      }
    }
  }

  lemma ReceiveOwn<P>(s: State<P>, t: State<P>, j: nat, h: Handle, pkg: P)
    requires Own(s) && j !in s.jobs && h in M(s).d && M(s).d[h].si.stat.Normal?
    requires t == s.(loop := t.loop, jobs := s.jobs[j := Job(h, pkg, false)]) && M(t) == L.AddUsers(M(s), h, 1)
    ensures Own(t)
  {
    assert Users(t) by {
      OneJobMore(s, t, j, h);
      UsersMoved(s, t, h, 1);
    }
    assert Jobs(t) by { JobsMoved(s, t, h, 1); }
  }

  lemma OneJobMore<P>(s: State<P>, t: State<P>, j: nat, h: Handle)
    requires j !in s.jobs && j in t.jobs && t.jobs[j].h == h && t.jobs - {j} == s.jobs
    ensures |JobsOn(t, h)| == |JobsOn(s, h)| + 1
    ensures forall g :: g != h ==> JobsOn(t, g) == JobsOn(s, g)
  {
    assert forall k :: k in s.jobs ==> k in t.jobs - {j} && t.jobs[k] == s.jobs[k];
    assert forall k :: k in t.jobs && k != j ==> k in t.jobs - {j};
    assert JobsOn(t, h) == JobsOn(s, h) + {j} && j !in JobsOn(s, h);
  }

  lemma ReplyOwn<P>(s: State<P>, t: State<P>, j: nat)
    requires Own(s) && j in s.jobs && s.jobs[j].h in M(s).d
    requires t == s.(loop := t.loop, jobs := s.jobs - {j}) && M(t) == L.AddUsers(M(s), s.jobs[j].h, -1)
    ensures Own(t)
  {
    var h := s.jobs[j].h;
    assert Users(t) by {
      OneJobMore(t, s, j, h);
      UsersMoved(s, t, h, -1);
    }
    assert Jobs(t) by { JobsMoved(s, t, h, -1); }
  }

  lemma DoneOwn<P>(s: State<P>, t: State<P>, h: Handle)
    requires Own(s) && h in s.phases && h in M(s).d
    requires t == s.(loop := t.loop, phases := s.phases - {h}) && M(t) == L.AddUsers(M(s), h, -1)
    ensures Own(t)
  {
    SameJobs(s, t);
    UsersMoved(s, t, h, -1);
    JobsMoved(s, t, h, -1);
  }

  /** Taking a mem-server or giving it back. */
  predicate JobStep<P>(st: Step<P>) {
    st.ReceiveStep? || st.ReplyStep? || st.FailStep? || st.DoneStep?
  }

  /** Steps that touch neither users nor the main loop. */
  lemma OtherOwn<P>(s: State<P>, t: State<P>)
    requires Own(s) && t.loop == s.loop && t.phases.Keys == s.phases.Keys
    requires t.jobs.Keys == s.jobs.Keys && forall j :: j in s.jobs ==> t.jobs[j].h == s.jobs[j].h
    ensures Own(t)
  {
    SameJobs(s, t);
  }

  lemma WritableNormal(m: L.Mgr)
    requires L.Inv(m) && L.Writable(m.byName, m.d).Some? && L.Writable(m.byName, m.d).value in m.d
    ensures m.d[L.Writable(m.byName, m.d).value].si.stat.Normal?
  {
    LI.WritableFacts(m.byName, m.d);
    assert L.DescOk(m.d[L.Writable(m.byName, m.d).value], m.age);
  }

  /** Every step of every thread keeps what does not depend on names. */
  lemma StepOwn<P>(s: State<P>, st: Step<P>)
    requires Base(s) && Enabled(s, st)
    ensures Own(Apply(s, st))
  {
    if st.LoopStep? {
      LoopOwn(s, st.ls);
    } else if JobStep(st) {
      JobStepOwn(s, st);
    } else {
      OtherOwn(s, Apply(s, st));
    }
  }

  lemma ReceiveStepOwn<P>(s: State<P>, j: nat, pkg: P)
    requires Base(s) && Enabled(s, ReceiveStep(j, pkg))
    ensures Own(Apply(s, ReceiveStep(j, pkg)))
  {
    WritableNormal(M(s));
    ReceiveOwn(s, Apply(s, ReceiveStep(j, pkg)), j, L.Writable(M(s).byName, M(s).d).value, pkg);
  }

  lemma JobStepOwn<P>(s: State<P>, st: Step<P>)
    requires Base(s) && Enabled(s, st) && JobStep(st)
    ensures Own(Apply(s, st))
  {
    match st
    case ReceiveStep(j, pkg) => ReceiveStepOwn(s, j, pkg);
    case ReplyStep(j) => ReplyOwn(s, Apply(s, st), j);
    case FailStep(j) => ReplyOwn(s, Apply(s, st), j);
    case DoneStep(h) => DoneOwn(s, Apply(s, st), h);
  }

  // ----- what the other threads do to logs

  /** Whose user count a step changes, and by how much. */
  ghost predicate CountsUser<P>(s: State<P>, t: State<P>, h: Handle, k: int) {
    && h in M(s).d && M(t) == L.AddUsers(M(s), h, k) && t.loop.pc == s.loop.pc
    && t == s.(loop := t.loop, jobs := t.jobs, phases := t.phases)
  }

  lemma JobStepCounts<P>(s: State<P>, st: Step<P>) returns (h: Handle, k: int)
    requires Enabled(s, st) && JobStep(st)
    ensures CountsUser(s, Apply(s, st), h, k)
    ensures !st.DoneStep? ==> Apply(s, st).phases == s.phases
  {
    match st
    case ReceiveStep(_, _) => h, k := L.Writable(M(s).byName, M(s).d).value, 1;
    case ReplyStep(j) => h, k := s.jobs[j].h, -1;
    case FailStep(j) => h, k := s.jobs[j].h, -1;
    case DoneStep(g) => h, k := g, -1;
  }

  lemma UsersFiled<P>(s: State<P>, t: State<P>, h: Handle, k: int)
    requires Filed(s) && CountsUser(s, t, h, k)
    ensures Filed(t) && LogsKept(s, t)
  {
    N.RecountedUnique(s.loop, t.loop, h, k, s.off);
    Fs.UsersTidy(s.files, s.offs, M(s), h, k);
  }

  lemma WriteFiled<P>(s: State<P>, j: nat, rest: seq<P>)
    requires Base(s) && Filed(s) && Enabled(s, WriteStep(j, rest))
    ensures var t := Apply(s, WriteStep(j, rest));
            && Filed(t) && Log(t, s.jobs[j].h) == Log(s, s.jobs[j].h) + [s.jobs[j].pkg]
            && forall h :: h != s.jobs[j].h ==> Log(t, h) == Log(s, h)
  {
    var h := s.jobs[j].h;
    assert M(s).d[h].si.stat.Normal? && L.DescOk(M(s).d[h], M(s).age);
    Fs.WriteTidy(s.files, s.offs, M(s), h, s.jobs[j].pkg, rest);
  }

  lemma UserStepFiled<P>(s: State<P>, st: Step<P>)
    requires Filed(s) && Enabled(s, st) && JobStep(st)
    ensures Filed(Apply(s, st)) && LogsKept(s, Apply(s, st))
  {
    var h, k := JobStepCounts(s, st);
    UsersFiled(s, Apply(s, st), h, k);
  }

  lemma StepFiled<P>(s: State<P>, st: Step<P>)
    requires Base(s) && Filed(s) && Enabled(s, st)
    ensures Filed(Apply(s, st))
  {
    if st.LoopStep? {
      LoopFiled(s, st.ls);
    } else if st.WriteStep? {
      WriteFiled(s, st.j, st.rest);
    } else if JobStep(st) {
      UserStepFiled(s, st);
    }
  }

  // ----- what the other threads do to the cycle

  /** The exporter's steps change neither what it replays nor the timestamp it will publish. */
  lemma SameRun<P>(c: DC.State<P>, es: DC.Step<P>)
    requires ExporterStep(es) && DC.Enabled(c, es)
    ensures var run := DC.Apply(c, es).run;
            c.run.Some? && run.Some? && run == Some(c.run.value.(phase := run.value.phase))
  {
  }

  lemma ExportRefines<P>(s: State<P>, h: Handle, es: DC.Step<P>)
    requires Own(s) && Enabled(s, ExportStep(h, es))
    ensures CycleRefines(s, ExportStep(h, es), Apply(s, ExportStep(h, es)))
  {
    assert Cycle(s) == CycleOf(s, h);
    SameRun(Cycle(s), es);
  }

  lemma DoneRefines<P>(s: State<P>, h: Handle)
    requires Own(s) && Enabled(s, DoneStep(h))
    ensures CycleRefines(s, DoneStep(h), Apply(s, DoneStep(h)))
  {
    assert Cycle(s) == CycleOf(s, h);
  }

  lemma UsersRefine<P>(s: State<P>, t: State<P>, h: Handle, k: int)
    requires CountsUser(s, t, h, k) && t.phases == s.phases && LogsKept(s, t)
    ensures Cycle(t) == Cycle(s)
  {
  }

  lemma JobRefines<P>(s: State<P>, st: Step<P>)
    requires Filed(s) && Enabled(s, st) && (st.ReceiveStep? || st.ReplyStep? || st.FailStep?)
    ensures CycleRefines(s, st, Apply(s, st))
  {
    assert LogsKept(s, Apply(s, st)) by { UserStepFiled(s, st); }
    var h, k := JobStepCounts(s, st);
    UsersRefine(s, Apply(s, st), h, k);
  }

  lemma WriteRefines<P>(s: State<P>, j: nat, rest: seq<P>)
    requires Base(s) && Filed(s) && Enabled(s, WriteStep(j, rest))
    ensures Cycle(Apply(s, WriteStep(j, rest))) == Cycle(s)
  {
    assert M(s).d[s.jobs[j].h].si.stat.Normal?;
    assert M(s).slot != Some(s.jobs[j].h);
    WriteFiled(s, j, rest);
  }

  /** Every step is a step of the dump cycle's model or leaves that alone. */
  lemma StepRefinesCycle<P>(s: State<P>, st: Step<P>)
    requires Base(s) && Filed(s) && Enabled(s, st)
    ensures CycleRefines(s, st, Apply(s, st))
  {
    match st
    case LoopStep(ls) => LoopRefinesCycle(s, ls);
    case WriteStep(j, rest) => WriteRefines(s, j, rest);
    case ReaderStep(rs) =>
    case ExportStep(h, es) => ExportRefines(s, h, es);
    case DoneStep(h) => DoneRefines(s, h);
    case _ => JobRefines(s, st);
  }

  /** The server refines both of its parts: every step is a step of the main loop's model or leaves it alone, and
      a step of the dump cycle's model or leaves that alone. */
  lemma StepRefines<P>(s: State<P>, st: Step<P>)
    requires Base(s) && Filed(s) && Enabled(s, st)
    ensures LoopRefines(s, st, Apply(s, st)) && CycleRefines(s, st, Apply(s, st))
  {
    assert CycleRefines(s, st, Apply(s, st)) by { StepRefinesCycle(s, st); }
  }

  lemma LoopFrozen<P>(s: State<P>, ls: ML.Step, h: Handle)
    requires Base(s) && Filed(s) && Enabled(s, LoopStep(ls)) && h in s.phases
    ensures var t := Apply(s, LoopStep(ls));
            h in M(s).d && h in M(t).d && Log(t, h) == Log(s, h)
  {
    var t := Apply(s, LoopStep(ls));
    assert Exporters(t) && h in t.phases by { LoopOwn(s, ls); }
    LoopFiled(s, ls);
  }

  /** Jobs are on mem-servers that are not dumping. */
  lemma WriteFrozen<P>(s: State<P>, j: nat, rest: seq<P>, h: Handle)
    requires Base(s) && Filed(s) && Enabled(s, WriteStep(j, rest)) && h in s.phases
    ensures h in M(s).d && h != s.jobs[j].h && Log(Apply(s, WriteStep(j, rest)), h) == Log(s, h)
  {
    assert M(s).d[h].si.stat.Dumping? && M(s).d[s.jobs[j].h].si.stat.Normal?;
    WriteFiled(s, j, rest);
  }

  /** The log that an exporter replays does not change while it does. */
  lemma LogIsFrozen<P>(s: State<P>, st: Step<P>, h: Handle)
    requires Base(s) && Filed(s) && Enabled(s, st) && h in s.phases
    ensures h in M(s).d && h in M(Apply(s, st)).d && Log(Apply(s, st), h) == Log(s, h)
  {
    if st.LoopStep? {
      LoopFrozen(s, st.ls, h);
    } else if st.WriteStep? {
      WriteFrozen(s, st.j, st.rest, h);
    } else if JobStep(st) {
      UserStepFiled(s, st);
      var g, k := JobStepCounts(s, st);
    }
  }

  // ----- everything

  lemma PoolKept<P>(c: DC.State<P>, cs: DC.Step<P>)
    requires DC.Inv(c) && DC.Enabled(c, cs)
    ensures DC.Count(DC.Apply(c, cs)) == DC.Count(c) && DC.Inv(DC.Apply(c, cs))
  {
    DC.StepInv(c, cs);
  }

  lemma LoopPart<P>(s: State<P>, st: Step<P>)
    requires L.Inv(M(s)) && Enabled(s, st)
    ensures L.Inv(M(Apply(s, st))) && LoopRefines(s, st, Apply(s, st))
  {
    if LoopMove(s, st).Some? { ML.StepInv(s.loop, LoopMove(s, st).value); }
  }

  lemma CyclePart<P>(s: State<P>, st: Step<P>, t: State<P>)
    requires DC.Inv(Cycle(s)) && CycleRefines(s, st, t)
    ensures DC.Inv(Cycle(t)) && |t.pool.infos| == |s.pool.infos|
  {
    assert Cycle(t).pool == t.pool && Cycle(s).pool == s.pool;
    if CycleMove(s, st).Some? { PoolKept(Cycle(s), CycleMove(s, st).value); }
  }

  lemma StepBase<P>(s: State<P>, st: Step<P>)
    requires Base(s) && Enabled(s, st)
    ensures Base(Apply(s, st)) && LoopRefines(s, st, Apply(s, st))
  {
    StepOwn(s, st);
    LoopPart(s, st);
  }

  /** Every step of every thread keeps everything. */
  lemma StepInv<P>(s: State<P>, st: Step<P>)
    requires Inv(s) && Enabled(s, st)
    ensures Inv(Apply(s, st))
  {
    assert Base(Apply(s, st)) by { StepBase(s, st); }
    assert Filed(Apply(s, st)) by { StepFiled(s, st); }
    StepRefinesCycle(s, st);
    CyclePart(s, st, Apply(s, st));
  }
}
