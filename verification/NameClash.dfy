/** What happens when a directory is found that has the name the creator is about to give.  The server does not look:
    with noWaitCleanUpMemServer, after a restart within one period, two mem-servers come to have one directory. */
module NameClash {
  import opened Ordered
  import opened Times
  import opened Descriptors
  import L = Lifecycle
  import LI = LifecycleInv
  import ML = MainLoop
  import N = Names
  import Fs = Files
  import St = Start
  import opened LoopChange
  import opened Cluster
  import CR = ClusterRuns
  import D = Durability

  // ----- names of the past

  /** Directories were made before now. */
  ghost predicate Past(fs: seq<St.Found>, now: Time) {
    forall i :: 0 <= i < |fs| ==> fs[i].name <= now.sec
  }

  /** What can be looked at before the server is started. */
  ghost predicate NoClash(fs: seq<St.Found>, wait: bool, now: Time, age: int, max: int, off: int)
    requires 0 < age
  {
    (wait && fs != []) || |fs| + 1 >= max || forall i :: 0 <= i < |fs| ==> fs[i].name != St.FirstId(now, age, off)
  }

  lemma LaterIds(now: Time, age: int, off: int, k: nat)
    requires 0 < age
    ensures k > 0 ==> now.sec < CreatorId(St.FirstId(now, age, off), age, k)
  {
    if k > 0 {
      InstantIsRecent(age, now.sec, off, now.sec);
      LaterIds(now, age, off, k - 1);
    }
  }

  /** Of the names a creator will give only the first can be one of the past. */
  lemma PastNames(fs: seq<St.Found>, wait: bool, now: Time, age: int, max: int, off: int)
    requires 0 < age && Past(fs, now)
    ensures St.NamesOk(fs, wait, now, age, max, off) <==> NoClash(fs, wait, now, age, max, off)
  {
    var id := St.FirstId(now, age, off);
    assert CreatorId(id, age, 0) == id;
    forall i | 0 <= i < |fs| ensures N.NeverGives(id, age, fs[i].name) <==> fs[i].name != id {
      forall k: nat ensures k > 0 ==> CreatorId(id, age, k) != fs[i].name { LaterIds(now, age, off, k); }
    }
  }

  // ----- the manager

  /** A server that has just been started without waiting: the directories of fs, and a creator that is due. */
  ghost predicate Opening(m: L.Mgr, fs: seq<St.Found>, id: int) {
    && ML.ClockOk(m.now) && St.WithCreator(m, fs, id)
    && m.d[|fs|].timeout == m.now && m.d[|fs|].si.trigger.CreateT? && forall h :: h in m.d ==> !m.d[h].si.w
  }

  lemma Opened(m: L.Mgr, fs: seq<St.Found>, id: int, name: int)
    requires St.AllFresh(m, |fs|) && St.NamesAre(m, fs) && ML.ClockOk(m.now)
    requires forall h :: h in m.d ==> !m.d[h].si.w
    ensures Opening(L.NewCreator(m, |fs|, id, name), fs, id)
  {
    St.CreatorAdded(m, fs, id, name);
    St.CreatorRecords(m, |fs|, id, name);
  }

  lemma NoneWrites(m: L.Mgr, k: nat)
    requires L.Descs(m) && St.AllFresh(m, k)
    ensures forall h :: h in m.d ==> !m.d[h].si.w
  {
    forall h | h in m.d ensures !m.d[h].si.w {
      assert L.DescOk(m.d[h], m.age) && St.FreshDesc(m.d[h]);
    }
  }

  lemma Opens(fs: seq<St.Found>, now: Time, age: int, max: int, off: int, name: int)
    requires 0 < age && ML.ClockOk(now)
    ensures var s := St.StartLoop(fs, false, now, age, max, off, name);
            && Opening(s.m, fs, St.FirstId(now, age, off)) && s == ML.State(s.m, ML.Check, false, 0)
            && s.m.now == now && s.m.age == age && s.m.max == max && s.m.n == |fs| + 1
  {
    var m, id := St.NewManager(fs, now, age, max), St.FirstId(now, age, off);
    St.ManagerFound(fs, now, age, max);
    NoneWrites(m, |fs|);
    assert Opening(L.NewCreator(m, |fs|, id, name), fs, id) by { Opened(m, fs, id, name); }
    assert |fs| !in m.d;
    St.CreatorRecords(m, |fs|, id, name);
  }

  lemma DueNow(m: L.Mgr, h: Handle)
    requires h in m.d && m.d[h].timeout == m.now && ValidTime(m.now)
    ensures ML.IsDue(m, h)
  {
    DueIffNotAfter(m.now, m.now);
  }

  /** The creator has given its id to a new one, b. */
  ghost predicate Doubled(m: L.Mgr, c: Handle, b: Handle, id: int, q: L.Mgr) {
    && c in m.d && b !in m.d && LI.Created(m, c, b, id, q) && q.now == m.now && q.age == m.age
    && b in q.byName && q.d.Keys == m.d.Keys + {b} && (forall h :: h in q.d ==> !q.d[h].si.w)
    && q.d[b].name == id && !q.d[b].creator && q.d[b].users == 0 && q.d[b].timeout == m.now && q.d[b].si == StatusSet(Unforked, 0)
    && q.d[b].next == Some(StatusSet(Normal, m.age * 60))
    && forall h :: h in m.d && h != c ==> q.d[h] == m.d[h]
  }

  lemma Doubles(m: L.Mgr, c: Handle, b: Handle, id: int)
    requires c in m.d && b !in m.d && forall h :: h in m.d ==> !m.d[h].si.w
    ensures Doubled(m, c, b, id, L.Create(m, c, b, id))
  {
    LI.CreateFacts(m, c, b, id);
    var d := m.d[b := L.NewDesc(m.d[c].id, id, m.age)];
    var i := Pos(m.byName, d, ByName, Key(d, ByName, b));
    assert InsertAt(m.byName, i, b)[i] == b;
  }

  lemma Creates(m: L.Mgr, fs: seq<St.Found>, id: int)
    requires Opening(m, fs, id)
    ensures var c, b := |fs|, |fs| + 1;
            && ML.IsDue(m, c) && ML.Triggerable(m, c, b) && m.d[c].si.trigger.CreateT?
            && var q := L.Create(m, c, b, id);
               Doubled(m, c, b, id, q) && ML.IsDue(q, b) && ML.Triggerable(q, b, b + 1)
  {
    var c, b := |fs|, |fs| + 1;
    DueNow(m, c);
    Doubles(m, c, b, id);
    DueNow(L.Create(m, c, b, id), b);
  }

  lemma {:induction false} WritableOnly(hs: seq<Handle>, d: map<Handle, Desc>, b: Handle)
    requires b in hs && b in d && !d[b].creator && d[b].si.w && forall h :: h in hs && h in d && h != b ==> !d[h].si.w
    ensures L.Writable(hs, d) == Some(b)
  {
    var n := |hs| - 1;
    if hs[n] != b {
      assert b in hs[..n] by { assert hs == hs[..n] + [hs[n]]; }
      WritableOnly(hs[..n], d, b);
    }
  }

  /** And it is forked, and takes packages. */
  lemma TakesPackages(m: L.Mgr, b: Handle)
    requires b in m.byName && b in m.d && !m.d[b].creator && m.d[b].next == Some(StatusSet(Normal, m.age * 60))
    requires forall h :: h in m.d ==> !m.d[h].si.w
    ensures var q := L.Fork(m, b, true);
            && q.d.Keys == m.d.Keys && q.d[b].si.stat.Normal? && q.d[b].name == m.d[b].name && !q.d[b].creator
            && q.d[b].users == m.d[b].users
            && L.Writable(q.byName, q.d) == Some(b)
            && forall h :: h in m.d && h != b ==> q.d[h] == m.d[h]
  {
    var q := L.Fork(m, b, true);
    WritableOnly(q.byName, q.d, b);
  }

  // ----- the server

  /** A step of the main loop that changes no directory and starts no process or thread. */
  lemma QuietStep<P>(s: State<P>, ls: ML.Step, loop: ML.State)
    requires OwnStep(ls) && ML.Enabled(s.loop, ls) && loop == ML.Apply(s.loop, ls) && !Spawns(s.loop, ls)
    requires 0 < M(s).age && N.Named(s.loop, ls, s.off)
    requires Fs.Dirs(s.files, M(s), loop.m) == s.files && Fs.Opened(s.offs, s.files, M(s), loop.m) == s.offs
    ensures Enabled(s, LoopStep(ls)) && Apply(s, LoopStep(ls)) == s.(loop := loop)
  {
  }

  lemma Checks<P>(s: State<P>)
    requires s.loop.pc.Check? && !ML.TooFull(M(s)) && 0 < M(s).age && s.offs == map[]
    ensures Enabled(s, LoopStep(ML.CheckStep))
    ensures Apply(s, LoopStep(ML.CheckStep)) == s.(loop := s.loop.(pc := ML.Fire))
  {
    Fs.SameWithout(M(s), M(s));
    Fs.KeptDirs(s.files, M(s), M(s));
    Fs.NoneOpened(s.files, M(s), M(s));
    QuietStep(s, ML.CheckStep, s.loop.(pc := ML.Fire));
  }

  lemma FiresCreator(s: ML.State, c: Handle, b: Handle, id: int, q: L.Mgr)
    requires s.pc.Fire? && ML.IsDue(s.m, c) && ML.Triggerable(s.m, c, b) && s.m.d[c].si.trigger.CreateT?
    requires q == L.Create(s.m, c, b, id)
    ensures var st := ML.FireStep(c, b, id, true);
            ML.Enabled(s, st) && ML.Apply(s, st) == s.(m := q) && !Spawns(s, st)
  {
  }

  /** The new one finds the directory there, and what is in it. */
  lemma Gives<P>(s: State<P>, c: Handle, b: Handle, id: int, q: L.Mgr)
    requires s.loop.pc.Fire? && N.Orderly(M(s), s.off) && s.offs == map[] && id in s.files
    requires ML.IsDue(M(s), c) && ML.Triggerable(M(s), c, b) && M(s).d[c].si.trigger.CreateT?
    requires M(s).d[c].creator && M(s).d[c].id == id
    requires q == L.Create(M(s), c, b, id) && Doubled(M(s), c, b, id, q)
    ensures var st := LoopStep(ML.FireStep(c, b, id, true));
            Enabled(s, st) && Apply(s, st) == s.(loop := s.loop.(m := q))
  {
    N.GivesItsId(M(s), c, s.off);
    FoundThere(s.files, M(s), c, b, id, q);
    FiresCreator(s.loop, c, b, id, q);
    QuietStep(s, ML.FireStep(c, b, id, true), s.loop.(m := q));
  }

  lemma FoundThere<P>(files: map<int, seq<P>>, m: L.Mgr, c: Handle, b: Handle, id: int, q: L.Mgr)
    requires Doubled(m, c, b, id, q) && id in files
    ensures Fs.Dirs(files, m, q) == files && Fs.Opened(map[], files, m, q) == map[]
  {
    Fs.RemovedWithout(q, m, b);
    Fs.KeptDirs(files, m, q);
    Fs.NoneOpened(files, m, q);
  }

  /** Its process opens the file at its beginning. */
  lemma Starts<P>(s: State<P>, b: Handle, id: int)
    requires s.loop.pc.Fire? && 0 < M(s).age && ML.IsDue(M(s), b) && ML.Triggerable(M(s), b, b + 1)
    requires M(s).d[b].si == StatusSet(Unforked, 0) && M(s).d[b].next == Some(StatusSet(Normal, M(s).age * 60))
    requires !M(s).d[b].creator && M(s).d[b].name == id && id in s.files && s.offs == map[]
    ensures var st := LoopStep(ML.FireStep(b, b + 1, 0, true));
            && Enabled(s, st)
            && Apply(s, st) == s.(loop := s.loop.(m := L.Fork(M(s), b, true)), offs := map[b := 0])
  {
    var q := L.Fork(M(s), b, true);
    Fs.SameWithout(q, M(s));
    Fs.KeptDirs(s.files, M(s), q);
    assert Fs.Forks(M(s), q, b) && forall h :: Fs.Forks(M(s), q, h) ==> h == b;
    assert Fs.Opened(s.offs, s.files, M(s), q) == map[b := 0];
  }

  lemma Receives<P>(s: State<P>, b: Handle, pkg: P)
    requires L.Writable(M(s).byName, M(s).d) == Some(b) && b in M(s).d && s.jobs == map[]
    ensures Enabled(s, ReceiveStep(0, pkg))
    ensures Apply(s, ReceiveStep(0, pkg)) ==
            s.(loop := s.loop.(m := L.AddUsers(M(s), b, 1)), jobs := map[0 := Job(b, pkg, false)])
  {
  }

  lemma WritesOver<P>(s: State<P>, b: Handle, id: int, pkg: P, rest: seq<P>)
    requires s.jobs == map[0 := Job(b, pkg, false)] && s.offs == map[b := 0]
    requires b in M(s).d && M(s).d[b].name == id && id in s.files && s.files[id] != []
    ensures Enabled(s, WriteStep(0, rest))
    ensures Apply(s, WriteStep(0, rest)) ==
            s.(files := s.files[id := [pkg] + rest], offs := map[b := 1], jobs := map[0 := Job(b, pkg, true)])
  {
    assert s.files[id][..0] + [pkg] + rest == [pkg] + rest;
  }

  lemma Replies<P>(s: State<P>, b: Handle, pkg: P)
    requires s.jobs == map[0 := Job(b, pkg, true)] && b in M(s).d && M(s).d[b].users > 0
    ensures Enabled(s, ReplyStep(0))
    ensures var t := Apply(s, ReplyStep(0));
            t.jobs == map[] && t.files == s.files && t.history == s.history && D.Answered(s, ReplyStep(0)) == multiset{pkg}
  {
    assert D.WrittenBy(s.jobs, 0) == [pkg];
    assert multiset([pkg]) == multiset{pkg};
  }

  /** A run of one step. */
  ghost predicate StepTo<P>(s: State<P>, st: Step<P>, t: State<P>) {
    CR.IsRun([s, t], [st])
  }

  lemma OneStep<P>(s: State<P>, st: Step<P>)
    requires Enabled(s, st)
    ensures StepTo(s, st, Apply(s, st))
  {
    assert CR.StepAt([s, Apply(s, st)], [st], 0);
  }

  /** A directory is found that has the first name the creator will give, and the server does not wait. */
  ghost predicate Clashing<P>(fs: seq<St.Found>, i: nat, now: Time, age: int, max: int, off: int) {
    && 0 < age && ML.ClockOk(now) && age * 60 <= now.sec && St.DirsDistinct(fs) && |fs| + 1 < max
    && i < |fs| && fs[i].name == St.FirstId(now, age, off)
  }

  /** Two mem-servers have the name: the one that was found and the new one, which is due. */
  ghost predicate TwoNamed(m: L.Mgr, b: Handle, i: nat, id: int) {
    && i in m.d && i != b && !m.d[i].creator && m.d[i].name == id && b in m.byName
    && ML.IsDue(m, b) && ML.Triggerable(m, b, b + 1) && !m.d[b].creator && m.d[b].name == id && m.d[b].users == 0
    && m.d[b].si == StatusSet(Unforked, 0) && m.d[b].next == Some(StatusSet(Normal, m.age * 60))
    && forall h :: h in m.d ==> !m.d[h].si.w
  }

  ghost predicate Twice<P>(s: State<P>, b: Handle, i: nat, id: int, files: map<int, seq<P>>) {
    && s.loop.pc.Fire? && 0 < M(s).age && TwoNamed(M(s), b, i, id)
    && s.files == files && id in files && s.offs == map[] && s.jobs == map[] && s.history == []
  }

  lemma BeginsOrderly(fs: seq<St.Found>, m: L.Mgr, now: Time, off: int)
    requires 0 < m.age && m.age * 60 <= now.sec && m.now == now && St.DirsDistinct(fs)
    requires Opening(m, fs, St.FirstId(now, m.age, off))
    ensures N.Orderly(m, off)
  {
    St.CreatorOrderly(m, fs, now, off);
  }

  lemma DoublesName(m: L.Mgr, fs: seq<St.Found>, id: int, i: nat, q: L.Mgr)
    requires St.WithCreator(m, fs, id) && i < |fs| && fs[i].name == id && Doubled(m, |fs|, |fs| + 1, id, q)
    requires ML.IsDue(q, |fs| + 1) && ML.Triggerable(q, |fs| + 1, |fs| + 2)
    ensures TwoNamed(q, |fs| + 1, i, id)
  {
    assert i in m.d && q.d[i] == m.d[i];
  }

  lemma DoublingMgr(m: L.Mgr, fs: seq<St.Found>, i: nat, id: int, q: L.Mgr)
    requires Opening(m, fs, id) && i < |fs| && fs[i].name == id && q == L.Create(m, |fs|, |fs| + 1, id)
    ensures TwoNamed(q, |fs| + 1, i, id)
  {
    Creates(m, fs, id);
    DoublesName(m, fs, id, i, q);
  }

  /** The creator fires. */
  lemma Doubling<P>(s: State<P>, fs: seq<St.Found>, i: nat, id: int, q: L.Mgr)
    requires s.loop.pc.Fire? && Opening(M(s), fs, id) && N.Orderly(M(s), s.off)
    requires ML.IsDue(M(s), |fs|) && ML.Triggerable(M(s), |fs|, |fs| + 1)
    requires q == L.Create(M(s), |fs|, |fs| + 1, id) && Doubled(M(s), |fs|, |fs| + 1, id, q)
    requires TwoNamed(q, |fs| + 1, i, id)
    requires id in s.files && s.offs == map[] && s.jobs == map[] && s.history == []
    ensures var t := s.(loop := s.loop.(m := q));
            StepTo(s, LoopStep(ML.FireStep(|fs|, |fs| + 1, id, true)), t) && Twice(t, |fs| + 1, i, id, s.files)
  {
    Gives(s, |fs|, |fs| + 1, id, q);
    OneStep(s, LoopStep(ML.FireStep(|fs|, |fs| + 1, id, true)));
  }

  /** The server checks that there are not too many, and the creator fires. */
  lemma FirstSteps<P>(s: State<P>, fs: seq<St.Found>, i: nat, now: Time, age: int, max: int, off: int)
    returns (s1: State<P>, s2: State<P>)
    requires Clashing<P>(fs, i, now, age, max, off) && s.loop == ML.State(M(s), ML.Check, false, 0) && s.off == off
    requires Opening(M(s), fs, St.FirstId(now, age, off))
    requires M(s).now == now && M(s).age == age && M(s).max == max && M(s).n == |fs| + 1
    requires fs[i].name in s.files && s.offs == map[] && s.jobs == map[] && s.history == []
    ensures StepTo(s, LoopStep(ML.CheckStep), s1)
    ensures StepTo(s1, LoopStep(ML.FireStep(|fs|, |fs| + 1, fs[i].name, true)), s2)
    ensures Twice(s2, |fs| + 1, i, fs[i].name, s.files)
  {
    Checks(s);
    OneStep(s, LoopStep(ML.CheckStep));
    s1 := s.(loop := s.loop.(pc := ML.Fire));
    BeginsOrderly(fs, M(s), now, off);
    var q := L.Create(M(s), |fs|, |fs| + 1, fs[i].name);
    Creates(M(s), fs, fs[i].name);
    DoublingMgr(M(s), fs, i, fs[i].name, q);
    Doubling(s1, fs, i, fs[i].name, q);
    s2 := s1.(loop := s1.loop.(m := q));
  }

  /** The new one is started and takes a package. */
  ghost predicate Holding<P>(s: State<P>, b: Handle, id: int, files: map<int, seq<P>>, pkg: P) {
    && b in M(s).d && M(s).d[b].name == id && M(s).d[b].users == 1 && s.files == files && id in files
    && s.offs == map[b := 0] && s.jobs == map[0 := Job(b, pkg, false)] && s.history == []
  }

  lemma MiddleSteps<P>(s: State<P>, b: Handle, i: nat, id: int, files: map<int, seq<P>>, pkg: P)
    returns (s3: State<P>, s4: State<P>)
    requires Twice(s, b, i, id, files)
    ensures StepTo(s, LoopStep(ML.FireStep(b, b + 1, 0, true)), s3) && StepTo(s3, ReceiveStep(0, pkg), s4)
    ensures Holding(s4, b, id, files, pkg)
  {
    Starts(s, b, id);
    s3 := Apply(s, LoopStep(ML.FireStep(b, b + 1, 0, true)));
    TakesPackages(M(s), b);
    OneStep(s, LoopStep(ML.FireStep(b, b + 1, 0, true)));
    Receives(s3, b, pkg);
    s4 := Apply(s3, ReceiveStep(0, pkg));
    OneStep(s3, ReceiveStep(0, pkg));
  }

  /** It writes it over the beginning of what was found, and that is answered. */
  lemma LastSteps<P>(s: State<P>, b: Handle, id: int, files: map<int, seq<P>>, pkg: P, rest: seq<P>)
    returns (s5: State<P>, s6: State<P>)
    requires Holding(s, b, id, files, pkg) && files[id] != []
    ensures StepTo(s, WriteStep(0, rest), s5) && StepTo(s5, ReplyStep(0), s6)
    ensures D.Answered(s5, ReplyStep(0)) == multiset{pkg}
    ensures s6.files == files[id := [pkg] + rest] && s6.history == [] && s6.jobs == map[]
  {
    WritesOver(s, b, id, pkg, rest);
    s5 := Apply(s, WriteStep(0, rest));
    OneStep(s, WriteStep(0, rest));
    Replies(s5, b, pkg);
    s6 := Apply(s5, ReplyStep(0));
    OneStep(s5, ReplyStep(0));
  }

  // ----- the results

  ghost predicate RunFrom<P>(s: State<P>, ss: seq<State<P>>, sts: seq<Step<P>>) {
    CR.IsRun(ss, sts) && ss[0] == s
  }

  /** One step more. */
  lemma Extend<P>(s: State<P>, ss: seq<State<P>>, sts: seq<Step<P>>, st: Step<P>, t: State<P>)
    returns (ss': seq<State<P>>, sts': seq<Step<P>>)
    requires RunFrom(s, ss, sts) && StepTo(ss[|sts|], st, t)
    ensures RunFrom(s, ss', sts') && ss' == ss + [t] && sts' == sts + [st] && ss'[|sts'|] == t
  {
    ss', sts' := ss + [t], sts + [st];
    assert CR.StepAt([ss[|sts|], t], [st], 0);
    forall k: nat | k < |sts'| ensures CR.StepAt(ss', sts', k) {
      if k < |sts| { assert CR.StepAt(ss, sts, k); }
    }
  }

  ghost predicate NoReply<P>(sts: seq<Step<P>>) {
    forall k :: 0 <= k < |sts| ==> !sts[k].ReplyStep?
  }

  /** In every run from s names stay distinct. */
  ghost predicate AlwaysDistinct<P(!new)>(s: State<P>) {
    forall ss: seq<State<P>>, sts: seq<Step<P>>, i: nat :: RunFrom(s, ss, sts) && i < |ss| ==> N.Distinct(M(ss[i]))
  }

  lemma ClashRun<P(!new)>(fs: seq<St.Found>, found: map<int, seq<P>>, i: nat, now: Time, age: int, max: int, off: int,
                          name: int, base: seq<seq<P>>, timestamp: int)
    requires Clashing<P>(fs, i, now, age, max, off)
    ensures !AlwaysDistinct(CR.StartServer(fs, found, false, now, age, max, off, name, base, timestamp))
  {
    var ss, sts := FirstRun(fs, found, i, now, age, max, off, name, base, timestamp);
    NotDistinct(M(ss[|sts|]), |fs| + 1, i, fs[i].name);
    SomeState(CR.StartServer(fs, found, false, now, age, max, off, name, base, timestamp), ss, sts, |sts|);
  }

  lemma NotDistinct(m: L.Mgr, b: Handle, i: nat, id: int)
    requires TwoNamed(m, b, i, id)
    ensures !N.Distinct(m)
  {
  }

  lemma SomeState<P(!new)>(s: State<P>, ss: seq<State<P>>, sts: seq<Step<P>>, i: nat)
    requires RunFrom(s, ss, sts) && i < |ss| && !N.Distinct(M(ss[i]))
    ensures !AlwaysDistinct(s)
  {
  }

  lemma StaysDistinct<P(!new)>(s: State<P>)
    requires Inv(s)
    ensures AlwaysDistinct(s)
  {
    forall ss: seq<State<P>>, sts: seq<Step<P>>, i: nat | RunFrom(s, ss, sts) && i < |ss|
      ensures N.Distinct(M(ss[i]))
    {
      CR.RunInv(ss, sts, i);
    }
  }

  /** Names stay distinct in all runs if and only if NoClash: the server waits for the end of the cleaning up, or what is
      found is so much that the creator is deleted first, or no directory has the first name it will give. */
  lemma DistinctIff<P(!new)>(fs: seq<St.Found>, found: map<int, seq<P>>, wait: bool, now: Time, age: int, max: int, off: int,
                       name: int, base: seq<seq<P>>, timestamp: int)
    requires 0 < age && ML.ClockOk(now) && age * 60 <= now.sec && 1 <= max && 0 < |base|
    requires St.DirsDistinct(fs) && Past(fs, now)
    ensures AlwaysDistinct(CR.StartServer(fs, found, wait, now, age, max, off, name, base, timestamp)) <==>
            NoClash(fs, wait, now, age, max, off)
  {
    PastNames(fs, wait, now, age, max, off);
    var s := CR.StartServer(fs, found, wait, now, age, max, off, name, base, timestamp);
    if NoClash(fs, wait, now, age, max, off) {
      CR.StartsWell(fs, found, wait, now, age, max, off, name, base, timestamp, max + |fs| + 1);
      StaysDistinct(s);
    } else {
      var i :| 0 <= i < |fs| && fs[i].name == St.FirstId(now, age, off);
      ClashRun(fs, found, i, now, age, max, off, name, base, timestamp);
    }
  }

  // ----- what is lost

  lemma {:induction false} NoneAnswered<P>(ss: seq<State<P>>, sts: seq<Step<P>>, n: nat)
    requires n <= |sts| && n <= |ss| && forall k :: 0 <= k < n ==> !sts[k].ReplyStep?
    ensures D.Tallied(ss, sts, n).answered == multiset{}
  {
    if n > 0 { NoneAnswered(ss, sts, n - 1); }
  }

  lemma OneAnswered<P>(ss: seq<State<P>>, sts: seq<Step<P>>, st: Step<P>, t: State<P>, pkg: P)
    requires |ss| == |sts| + 1 && NoReply(sts) && D.Answered(ss[|sts|], st) == multiset{pkg}
    ensures D.Tallied(ss + [t], sts + [st], |sts| + 1).answered == multiset{pkg}
  {
    var ss', sts' := ss + [t], sts + [st];
    NoneAnswered(ss', sts', |sts|);
    assert ss'[|sts|] == ss[|sts|] && sts'[|sts|] == st;
    var none: multiset<P> := multiset{};
    assert none + multiset{pkg} == multiset{pkg};
  }

  lemma ServerSteps<P>(fs: seq<St.Found>, found: map<int, seq<P>>, i: nat, now: Time, age: int, max: int, off: int,
                       name: int, base: seq<seq<P>>, timestamp: int) returns (s1: State<P>, s2: State<P>)
    requires Clashing<P>(fs, i, now, age, max, off)
    ensures var s := CR.StartServer(fs, found, false, now, age, max, off, name, base, timestamp);
            StepTo(s, LoopStep(ML.CheckStep), s1)
    ensures StepTo(s1, LoopStep(ML.FireStep(|fs|, |fs| + 1, fs[i].name, true)), s2)
    ensures Twice(s2, |fs| + 1, i, fs[i].name, CR.FoundFiles(fs, found))
  {
    var s := CR.StartServer(fs, found, false, now, age, max, off, name, base, timestamp);
    Opens(fs, now, age, max, off, name);
    assert fs[i].name in s.files;
    s1, s2 := FirstSteps(s, fs, i, now, age, max, off);
  }

  lemma FirstRun<P>(fs: seq<St.Found>, found: map<int, seq<P>>, i: nat, now: Time, age: int, max: int, off: int, name: int,
                    base: seq<seq<P>>, timestamp: int)
    returns (ss: seq<State<P>>, sts: seq<Step<P>>)
    requires Clashing<P>(fs, i, now, age, max, off)
    ensures RunFrom(CR.StartServer(fs, found, false, now, age, max, off, name, base, timestamp), ss, sts) && NoReply(sts)
    ensures Twice(ss[|sts|], |fs| + 1, i, fs[i].name, CR.FoundFiles(fs, found))
  {
    var s := CR.StartServer(fs, found, false, now, age, max, off, name, base, timestamp);
    var s1, s2 := ServerSteps(fs, found, i, now, age, max, off, name, base, timestamp);
    ss, sts := Extend(s, [s], [], LoopStep(ML.CheckStep), s1);
    ss, sts := Extend(s, ss, sts, LoopStep(ML.FireStep(|fs|, |fs| + 1, fs[i].name, true)), s2);
  }

  lemma MiddleRun<P>(s: State<P>, ss: seq<State<P>>, sts: seq<Step<P>>, b: Handle, i: nat, id: int, files: map<int, seq<P>>,
                     pkg: P)
    returns (ss': seq<State<P>>, sts': seq<Step<P>>)
    requires RunFrom(s, ss, sts) && NoReply(sts) && Twice(ss[|sts|], b, i, id, files)
    ensures RunFrom(s, ss', sts') && NoReply(sts') && Holding(ss'[|sts'|], b, id, files, pkg)
  {
    var s3, s4 := MiddleSteps(ss[|sts|], b, i, id, files, pkg);
    ss', sts' := Extend(s, ss, sts, LoopStep(ML.FireStep(b, b + 1, 0, true)), s3);
    ss', sts' := Extend(s, ss', sts', ReceiveStep(0, pkg), s4);
  }

  lemma LastRun<P>(s: State<P>, ss: seq<State<P>>, sts: seq<Step<P>>, b: Handle, id: int, files: map<int, seq<P>>, pkg: P,
                   rest: seq<P>)
    returns (ss': seq<State<P>>, sts': seq<Step<P>>)
    requires RunFrom(s, ss, sts) && NoReply(sts) && Holding(ss[|sts|], b, id, files, pkg) && files[id] != []
    ensures RunFrom(s, ss', sts') && D.Tallied(ss', sts', |sts'|).answered == multiset{pkg}
    ensures ss'[|sts'|].files == files[id := [pkg] + rest] && ss'[|sts'|].history == [] && ss'[|sts'|].jobs == map[]
  {
    var s5, s6 := LastSteps(ss[|sts|], b, id, files, pkg, rest);
    var ss5, sts5 := Extend(s, ss, sts, WriteStep(0, rest), s5);
    ss', sts' := Extend(s, ss5, sts5, ReplyStep(0), s6);
    OneAnswered(ss5, sts5, ReplyStep(0), s6, pkg);
  }

  /** If there is a clash, and the directory found is not empty, then there is a run in which the first package taken is
      answered as stored and writes over what was found, of which nothing has been published: with packages of one size
      it takes the place of the first package found, which is nowhere then. */
  lemma LosingRun<P>(fs: seq<St.Found>, found: map<int, seq<P>>, i: nat, now: Time, age: int, max: int, off: int,
                     name: int, base: seq<seq<P>>, timestamp: int, pkg: P, rest: seq<P>)
    returns (ss: seq<State<P>>, sts: seq<Step<P>>)
    requires Clashing<P>(fs, i, now, age, max, off) && fs[i].name in found && found[fs[i].name] != []
    ensures RunFrom(CR.StartServer(fs, found, false, now, age, max, off, name, base, timestamp), ss, sts)
    ensures D.Tallied(ss, sts, |sts|).answered == multiset{pkg} && ss[|sts|].history == [] && ss[|sts|].jobs == map[]
    ensures var files := CR.FoundFiles(fs, found);
            ss[|sts|].files == files[fs[i].name := [pkg] + rest] &&
            (rest == files[fs[i].name][1..] ==>
               multiset(ss[|sts|].files[fs[i].name]) + multiset{files[fs[i].name][0]} ==
               multiset(files[fs[i].name]) + multiset{pkg})
  {
    var s := CR.StartServer(fs, found, false, now, age, max, off, name, base, timestamp);
    var files := CR.FoundFiles(fs, found);
    var id, b := fs[i].name, |fs| + 1;
    ss, sts := FirstRun(fs, found, i, now, age, max, off, name, base, timestamp);
    ss, sts := MiddleRun(s, ss, sts, b, i, id, files, pkg);
    ss, sts := LastRun(s, ss, sts, b, id, files, pkg, rest);
    FirstIsGone(files[id], pkg);
  }

  /** What was in the file before, and is not now. */
  lemma FirstIsGone<P>(file: seq<P>, pkg: P)
    requires file != []
    ensures multiset([pkg] + file[1..]) + multiset{file[0]} == multiset(file) + multiset{pkg}
  {
    assert file == [file[0]] + file[1..];
    assert multiset([pkg] + file[1..]) == multiset{pkg} + multiset(file[1..]);
    assert multiset([file[0]] + file[1..]) == multiset{file[0]} + multiset(file[1..]);
  }

  /** The end of one of two mem-servers of one name removes the directory of the other, too: its log is empty, and it
      does not reach a file. */
  lemma EndTakesBoth<P>(s: State<P>, g: Handle, h: Handle, born: Handle, name: int, ok: bool)
    requires Enabled(s, LoopStep(ML.FireStep(g, born, name, ok))) && M(s).d[g].si.trigger.EndT?
    requires h in M(s).d && g != h && !M(s).d[g].creator && !M(s).d[h].creator && M(s).d[g].name == M(s).d[h].name
    ensures var t := Apply(s, LoopStep(ML.FireStep(g, born, name, ok)));
            h in M(t).d && Log(t, h) == [] && h !in t.offs && M(s).d[h].name !in t.files
  {
    var t := Apply(s, LoopStep(ML.FireStep(g, born, name, ok)));
    assert M(t) == L.Del(M(s), g);
    Fs.RemovedWithout(M(s), M(t), g);
  }

  /** From then on what it writes and answers as stored is in no file. */
  lemma WritesNowhere<P>(s: State<P>, j: nat, rest: seq<P>)
    requires Enabled(s, WriteStep(j, rest)) && s.jobs[j].h !in s.offs
    ensures var t := Apply(s, WriteStep(j, rest));
            t.files == s.files && t.history == s.history && t.jobs[j].written
  {
  }

  /** Its process is not started again. */
  lemma StaysOut<P>(s: State<P>, st: Step<P>, h: Handle)
    requires Base(s) && Enabled(s, st) && h in M(s).d && !M(s).d[h].si.stat.Unforked? && h !in s.offs
    ensures h !in Apply(s, st).offs
  {
  }

  lemma StaysForked<P>(s: State<P>, st: Step<P>, h: Handle)
    requires Base(s) && Enabled(s, st) && h in M(s).d && !M(s).d[h].si.stat.Unforked?
    ensures h in M(Apply(s, st)).d ==> !M(Apply(s, st)).d[h].si.stat.Unforked?
  {
    if st.LoopStep? {
      LoopStepEffect(s, st.ls);
      ForkedStays(M(s), M(Apply(s, st)), StepChange(s.loop, st.ls), h);
    }
  }

  lemma ForkedStays(m: L.Mgr, q: L.Mgr, c: Change, h: Handle)
    requires Changed(m, q, c) && h in m.d && !m.d[h].si.stat.Unforked?
    ensures h in q.d ==> !q.d[h].si.stat.Unforked?
  {
  }
}
