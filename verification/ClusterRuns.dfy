/** Whole runs of the server: what each part promises of its own runs holds when all of them run together. */
module ClusterRuns {
  import opened Ordered
  import opened Descriptors
  import opened Times
  import L = Lifecycle
  import BP = BakerPool
  import ML = MainLoop
  import Press = BackPressure
  import WU = WakeUp
  import DC = DumpCycle
  import F = Firing
  import St = Start
  import Fs = Files
  import opened Cluster

  ghost predicate StepAt<P>(ss: seq<State<P>>, sts: seq<Step<P>>, i: nat) {
    i + 1 < |ss| && i < |sts| && Enabled(ss[i], sts[i]) && ss[i + 1] == Apply(ss[i], sts[i])
  }

  /** A finite run of the whole server. */
  ghost predicate IsRun<P>(ss: seq<State<P>>, sts: seq<Step<P>>) {
    |ss| == |sts| + 1 && forall i: nat :: i < |sts| ==> StepAt(ss, sts, i)
  }

  lemma {:induction false} RunBase<P>(ss: seq<State<P>>, sts: seq<Step<P>>, i: nat)
    requires IsRun(ss, sts) && Base(ss[0]) && i < |ss|
    ensures Base(ss[i])
  {
    if i > 0 {
      RunBase(ss, sts, i - 1);
      assert StepAt(ss, sts, i - 1);
      StepBase(ss[i - 1], sts[i - 1]);
    }
  }

  lemma AfterStep<P>(s: State<P>, st: Step<P>, t: State<P>)
    requires Inv(s) && Enabled(s, st) && t == Apply(s, st)
    ensures Inv(t) && Sees(s, st, t) && t.base == s.base
  {
    assert Inv(t) by { StepInv(s, st); }
    assert Sees(s, st, t) by { StepRefines(s, st); }
  }

  ghost predicate Since<P>(s: State<P>, base: seq<seq<P>>) {
    Inv(s) && s.base == base
  }

  lemma SinceAt<P>(ss: seq<State<P>>, sts: seq<Step<P>>, i: nat, base: seq<seq<P>>)
    requires IsRun(ss, sts) && i < |sts| && Since(ss[i], base)
    ensures Since(ss[i + 1], base) && Sees(ss[i], sts[i], ss[i + 1])
  {
    assert StepAt(ss, sts, i);
    AfterStep(ss[i], sts[i], ss[i + 1]);
  }

  lemma {:induction false} RunSince<P>(ss: seq<State<P>>, sts: seq<Step<P>>, i: nat)
    requires IsRun(ss, sts) && Inv(ss[0]) && i < |ss|
    ensures Since(ss[i], ss[0].base)
  {
    if i > 0 {
      RunSince(ss, sts, i - 1);
      SinceAt(ss, sts, i - 1, ss[0].base);
    }
  }

  lemma RunInv<P>(ss: seq<State<P>>, sts: seq<Step<P>>, i: nat)
    requires IsRun(ss, sts) && Inv(ss[0]) && i < |ss|
    ensures Inv(ss[i]) && ss[i].base == ss[0].base
    ensures i < |sts| ==> Sees(ss[i], sts[i], ss[i + 1])
  {
    RunSince(ss, sts, i);
    if i < |sts| {
      SinceAt(ss, sts, i, ss[0].base);
    }
  }

  // ----- starting

  /** The server before its first pass: nobody uses a mem-server, nothing dumps, the replicas hold whatever they hold. */
  function Boot<P>(loop: ML.State, off: int, base: seq<seq<P>>, timestamp: int, files: map<int, seq<P>>): State<P> {
    State(loop, off, BP.Loaded(|base|, timestamp), base, base, [], map[], files, map[], map[])
  }

  lemma BootBase<P>(loop: ML.State, off: int, base: seq<seq<P>>, timestamp: int, files: map<int, seq<P>>)
    requires L.Inv(loop.m) && loop.m.slot == None && forall h :: h in loop.m.d ==> loop.m.d[h].users == 0
    ensures var s := Boot(loop, off, base, timestamp, files);
            Base(s) && DC.Inv(Cycle(s)) && |s.pool.infos| == |base|
  {
    var s := Boot(loop, off, base, timestamp, files);
    BP.LoadedInv(|base|, timestamp);
    assert forall h :: JobsOn(s, h) == {};
    assert DC.Inv(Cycle(s)) by { DC.InitInv(Cycle(s), timestamp); }
  }

  /** The package files of the directories that are found. */
  function FoundFiles<P>(fs: seq<St.Found>, found: map<int, seq<P>>): map<int, seq<P>> {
    map x | x in (set i | 0 <= i < |fs| :: fs[i].name) :: if x in found then found[x] else []
  }

  /** The server as its main function starts it, with what it finds in directories and replicas. */
  function StartServer<P>(fs: seq<St.Found>, found: map<int, seq<P>>, wait: bool, now: Time, age: int, max: int,
                          off: int, name: int, base: seq<seq<P>>, timestamp: int): State<P>
    requires 0 < age
  {
    Boot(St.StartLoop(fs, wait, now, age, max, off, name), off, base, timestamp, FoundFiles(fs, found))
  }

  /** However the server stopped, and whether it cleans up first or not: it starts with all that does not depend on
      names, nobody waiting for nothing, and within its bound.  Its mem-servers have their files for themselves, and so
      all of the invariant holds, if and only if no directory is found that has a name the creator will give; unless the
      creator waits for the end of the cleaning up, or is deleted at once for there being too many mem-servers. */
  lemma StartsWell<P>(fs: seq<St.Found>, found: map<int, seq<P>>, wait: bool, now: Time, age: int, max: int,
                      off: int, name: int, base: seq<seq<P>>, timestamp: int, b: int)
    requires 0 < age && ML.ClockOk(now) && 1 <= max <= b && 0 < |base|
    requires |fs| + (if wait && fs != [] then 0 else 1) <= b
    ensures var s := StartServer(fs, found, wait, now, age, max, off, name, base, timestamp);
            && Base(s) && Healthy(s, b) && s.jobs == map[]
            && (age * 60 <= now.sec && St.DirsDistinct(fs) ==>
                  (Inv(s) <==> St.NamesOk(fs, wait, now, age, max, off)))
  {
    St.StartsWell(fs, wait, now, age, max, off, name, b);
    var loop := St.StartLoop(fs, wait, now, age, max, off, name);
    BootBase(loop, off, base, timestamp, FoundFiles(fs, found));
    if age * 60 <= now.sec && St.DirsDistinct(fs) {
      St.StartUniqueIff(fs, wait, now, age, max, off, name);
      St.StartNames(fs, wait, now, age, max, off, name);
      StartTidy(fs, found, loop.m);
    }
  }

  lemma StartTidy<P>(fs: seq<St.Found>, found: map<int, seq<P>>, m: L.Mgr)
    requires St.Begun(m, fs)
    ensures Fs.Tidy(FoundFiles(fs, found), map[], m)
  {
    forall h | h in m.d && !m.d[h].creator ensures Fs.FileOk(FoundFiles(fs, found), map[], m.d[h], h) {
      assert m.d[h].name == fs[h].name;
    }
    forall x | x in FoundFiles(fs, found) ensures Fs.Owned(m, x) {
      var i :| 0 <= i < |fs| && fs[i].name == x;
      assert i in m.d && m.d[i].name == x;
    }
  }

  // ----- the main loop's promises

  ghost predicate Healthy<P>(s: State<P>, b: int) {
    Press.Bounded(s.loop, b) && WU.WakeOk(M(s), s.loop.pending) && F.TimesOk(M(s))
  }

  lemma LoopKeeps<P>(s: State<P>, st: Step<P>, b: int)
    requires Base(s) && Enabled(s, st) && Healthy(s, b)
    ensures Healthy(Apply(s, st), b)
  {
    assert LoopRefines(s, st, Apply(s, st)) by { StepBase(s, st); }
    if LoopMove(s, st).Some? {
      var ls := LoopMove(s, st).value;
      Press.StepBounded(s.loop, ls, b);
      WU.StepWake(s.loop, ls);
      F.StepTimes(s.loop, ls);
    }
  }

  lemma HealthyAt<P>(ss: seq<State<P>>, sts: seq<Step<P>>, i: nat, b: int)
    requires IsRun(ss, sts) && Base(ss[0]) && i < |sts| && Healthy(ss[i], b)
    ensures Healthy(ss[i + 1], b)
  {
    RunBase(ss, sts, i);
    assert StepAt(ss, sts, i);
    LoopKeeps(ss[i], sts[i], b);
  }

  lemma {:induction false} RunHealthy<P>(ss: seq<State<P>>, sts: seq<Step<P>>, i: nat, b: int)
    requires IsRun(ss, sts) && Base(ss[0]) && i < |ss| && Healthy(ss[0], b)
    ensures Healthy(ss[i], b)
  {
    if i > 0 {
      RunHealthy(ss, sts, i - 1, b);
      HealthyAt(ss, sts, i - 1, b);
    }
  }

  /** At every moment of every run: the number of mem-servers is within its bound, at most one mem-server is dumping,
      only it has an exporter, and the parked ones never wait for each other only.  None of this depends on names. */
  lemma RunSafe<P>(ss: seq<State<P>>, sts: seq<Step<P>>, i: nat, b: int)
    requires IsRun(ss, sts) && Base(ss[0]) && i < |ss| && Healthy(ss[0], b)
    ensures var m := M(ss[i]);
            && m.n == |m.byName| <= b
            && (forall g, h :: g in m.d && h in m.d && m.d[g].si.stat.Dumping? && m.d[h].si.stat.Dumping? ==> g == h)
            && (forall h :: h in ss[i].phases ==> h in m.d && m.d[h].si.stat.Dumping?)
            && (m.d.Keys != {} ==>
                  ss[i].loop.pending > 0 || exists h :: h in m.d && (!WU.Parked(m.d[h]) || m.d[h].users > 0))
  {
    RunBase(ss, sts, i);
    RunHealthy(ss, sts, i, b);
    assert L.Inv(M(ss[i]));
    if M(ss[i]).d.Keys != {} { WU.SomethingIsOutstanding(M(ss[i]), ss[i].loop.pending); }
  }

  // ----- the pool's promises

  /** A step as the pool sees it. */
  ghost predicate Sees<P>(s: State<P>, st: Step<P>, t: State<P>) {
    DC.Inv(Cycle(s)) && match CycleMove(s, st)
      case None => Cycle(t) == Cycle(s)
      case Some(cs) => DC.Next(Cycle(s), cs, Cycle(t))
  }

  lemma SizeKept<P>(s: State<P>, st: Step<P>, t: State<P>)
    requires Sees(s, st, t)
    ensures |t.pool.infos| == |s.pool.infos| && |s.content| == |s.pool.infos| && DC.Inv(Cycle(t))
    ensures s.history <= t.history
  {
    if CycleMove(s, st).Some? { PoolKept(Cycle(s), CycleMove(s, st).value); }
    assert Cycle(s).pool == s.pool && Cycle(t).pool == t.pool;
    assert Cycle(s).content == s.content && Cycle(s).history == s.history && Cycle(t).history == t.history;
  }

  ghost predicate Holds<P>(s: State<P>, k: nat, version: seq<P>) {
    k < |s.content| && s.content[k] == version
  }

  lemma BusyKept<P>(s: State<P>, st: Step<P>, t: State<P>, k: nat, version: seq<P>)
    requires Sees(s, st, t) && Holds(s, k, version) && k < |s.pool.infos| && s.pool.infos[k].busy
    ensures Holds(t, k, version)
  {
    SizeKept(s, st, t);
    if CycleMove(s, st).Some? { DC.SessionStep(Cycle(s), CycleMove(s, st).value, Cycle(t), k); }
    assert Cycle(s).content == s.content && Cycle(t).content == t.content;
  }

  lemma Taken<P>(s: State<P>, st: Step<P>, t: State<P>, k: nat)
    requires Sees(s, st, t) && st.ReaderStep? && st.cs.AllocStep?
    requires k < |s.pool.infos| && !s.pool.infos[k].busy && k < |t.pool.infos| && t.pool.infos[k].busy
    ensures k < |s.base| && Holds(t, k, s.base[k] + s.history)
  {
    DC.FirstOfSession(Cycle(s), st.cs, Cycle(t), k);
  }

  lemma BusyKeptAt<P>(ss: seq<State<P>>, sts: seq<Step<P>>, i: nat, k: nat, version: seq<P>)
    requires IsRun(ss, sts) && Inv(ss[0]) && i < |sts| && Holds(ss[i], k, version)
    requires k < |ss[i].pool.infos| && ss[i].pool.infos[k].busy
    ensures Holds(ss[i + 1], k, version)
  {
    RunInv(ss, sts, i);
    BusyKept(ss[i], sts[i], ss[i + 1], k, version);
  }

  lemma TakenAt<P>(ss: seq<State<P>>, sts: seq<Step<P>>, i: nat, k: nat)
    requires IsRun(ss, sts) && Inv(ss[0]) && i < |sts| && sts[i].ReaderStep? && sts[i].cs.AllocStep?
    requires k < |ss[i].pool.infos| && !ss[i].pool.infos[k].busy
    requires k < |ss[i + 1].pool.infos| && ss[i + 1].pool.infos[k].busy
    ensures k < |ss[0].base| && Holds(ss[i + 1], k, ss[0].base[k] + ss[i].history)
  {
    RunInv(ss, sts, i);
    Taken(ss[i], sts[i], ss[i + 1], k);
  }

  /** A reader that keeps a baker from state i to state j sees, all that time, exactly what the baker held at the start and
      the packages published from then until it was given the baker: whatever is received, dumped, forked or removed
      meanwhile. */
  lemma {:induction false} ReadersSeeOneVersion<P>(ss: seq<State<P>>, sts: seq<Step<P>>, i: nat, j: nat, k: nat)
    requires IsRun(ss, sts) && Inv(ss[0]) && i < j < |ss| && sts[i].ReaderStep? && sts[i].cs.AllocStep?
    requires k < |ss[i].pool.infos| && !ss[i].pool.infos[k].busy
    requires forall m :: i < m <= j ==> k < |ss[m].pool.infos| && ss[m].pool.infos[k].busy
    ensures k < |ss[0].base| && Holds(ss[j], k, ss[0].base[k] + ss[i].history)
    decreases j
  {
    if j == i + 1 {
      TakenAt(ss, sts, i, k);
    } else {
      ReadersSeeOneVersion(ss, sts, i, j - 1, k);
      BusyKeptAt(ss, sts, j - 1, k, ss[0].base[k] + ss[i].history);
    }
  }

  lemma GrowsAt<P>(ss: seq<State<P>>, sts: seq<Step<P>>, i: nat)
    requires IsRun(ss, sts) && Inv(ss[0]) && i < |sts|
    ensures ss[i].history <= ss[i + 1].history
  {
    RunInv(ss, sts, i);
    SizeKept(ss[i], sts[i], ss[i + 1]);
  }

  /** Versions only grow. */
  lemma {:induction false} HistoryGrows<P>(ss: seq<State<P>>, sts: seq<Step<P>>, i: nat, j: nat)
    requires IsRun(ss, sts) && Inv(ss[0]) && i <= j < |ss|
    ensures ss[i].history <= ss[j].history
    decreases j
  {
    if i < j {
      HistoryGrows(ss, sts, i, j - 1);
      GrowsAt(ss, sts, j - 1);
    }
  }

  /** At every moment of every run two READING replicas show the same if and only if they held the same at the start. */
  lemma AlikeIffBegunAlike<P>(ss: seq<State<P>>, sts: seq<Step<P>>, i: nat, j: nat, k: nat)
    requires IsRun(ss, sts) && Inv(ss[0]) && i < |ss| && j < |ss[i].pool.infos| && k < |ss[i].pool.infos|
    requires ss[i].pool.infos[j].reading && ss[i].pool.infos[k].reading
    ensures j < |ss[0].base| && k < |ss[0].base| && j < |ss[i].content| && k < |ss[i].content|
    ensures ss[i].content[j] == ss[i].content[k] <==> ss[0].base[j] == ss[0].base[k]
  {
    RunInv(ss, sts, i);
    var c := Cycle(ss[i]);
    assert c.pool == ss[i].pool && c.content == ss[i].content && c.base == ss[i].base;
    DC.AlikeIffBegunAlike(c, j, k);
  }

  /** At every moment of every run at least half of the replicas are READING: so one at least, if there are two or more. */
  lemma HalfServes<P>(ss: seq<State<P>>, sts: seq<Step<P>>, i: nat)
    requires IsRun(ss, sts) && Inv(ss[0]) && i < |ss|
    ensures |DC.Reading(ss[i].pool)| >= |ss[i].pool.infos| / 2 && |ss[i].pool.infos| == |ss[0].base|
    ensures |ss[0].base| >= 2 ==> exists k :: 0 <= k < |ss[i].pool.infos| && ss[i].pool.infos[k].reading
  {
    RunInv(ss, sts, i);
    var c := Cycle(ss[i]);
    assert c.pool == ss[i].pool && c.base == ss[i].base;
    DC.HalfServes(c);
  }

  /** What is published is published under the id of the mem-server whose log it is. */
  lemma PublishedUnderId<P>(s: State<P>, h: Handle)
    requires Inv(s) && Enabled(s, ExportStep(h, DC.AlterStep))
    ensures var t := Apply(s, ExportStep(h, DC.AlterStep));
            t.pool.maxtime == M(s).d[h].id && t.history == s.history + Log(s, h)
  {
  }
}
