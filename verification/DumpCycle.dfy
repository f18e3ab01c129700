/** One dump cycle of the exporter thread, interleaved in every possible way with readers that allocate and
    free bakers.  Each mutex-held region of the source is one step; the two export phases replay the log into
    every baker of the batch one package at a time, the bakers in any order and at different speeds. */
module DumpCycle {
  import opened Ordered
  import opened BakerPool

  /** Where the exporter thread is.  `next` is waitWBakers' scan index; `done[j]` is how many packages of the
      log the j-th export process of the batch has applied. */
  datatype Phase =
    | Begin
    | Wait1(next: nat)
    | Copy1(done: seq<nat>)
    | Wait2(next: nat)
    | Copy2(done: seq<nat>)
    | Ending

  datatype Run<P> = Run(log: seq<P>, id: int, phase: Phase)

  /** `base[k]` is what baker k held when the server started, which need not be the same for all; `content[k]` is that
      and the packages applied to it since.  `history` is what has been published since the start. */
  datatype State<P> = State(pool: Pool, base: seq<seq<P>>, content: seq<seq<P>>, history: seq<P>, run: Option<Run<P>>)

  datatype Step<P> =
    | AllocStep(thr: int)
    | FreeStep(k: nat)
    | Launch(log: seq<P>, id: int)
    | SkipStep
    | MoveStep
    | ScanStep
    | CopyStep(j: nat)
    | AlterStep
    | WToRStep
    | FinishStep

  function Count<P>(s: State<P>): nat { |s.pool.infos| }

  function Half<P>(s: State<P>): nat { Count(s) / 2 }

  function Zeros(n: nat): seq<nat> { seq(n, i => 0) }

  /** First baker and size of the batch being exported. */
  function Base<P>(s: State<P>, ph: Phase): nat
    requires ph.Copy1? || ph.Copy2?
  {
    if ph.Copy1? then 0 else Half(s)
  }

  predicate AllDone(done: seq<nat>, size: nat) {
    forall j :: 0 <= j < |done| ==> done[j] == size
  }

  /** When a step may be taken: the guards of the source, and for MoveStep and WToRStep what their list walks
      need in order not to run off the lists (CycleNeverStuck shows that both needs are always met). */
  ghost predicate Enabled<P>(s: State<P>, st: Step<P>) {
    match st
    case AllocStep(_) => s.pool.valid.nodes != [] && s.pool.valid.nodes[0] < Count(s)
    case FreeStep(k) => k < Count(s) && s.pool.infos[k].busy
    case Launch(_, _) => s.run.None?
    case SkipStep =>
      s.run.Some? && s.run.value.phase.Begin? && (s.run.value.log == [] || Count(s) == 0)
    case MoveStep =>
      && s.run.Some? && s.run.value.phase.Begin? && s.run.value.log != [] && Count(s) != 0
      && BakerPool.Inv(s.pool) && Movable(s.pool, Ids(Half(s)))
    case ScanStep =>
      && s.run.Some? && (s.run.value.phase.Wait1? || s.run.value.phase.Wait2?)
      && s.run.value.phase.next <= Count(s)
    case CopyStep(j) => s.run.Some? && CanCopy(s, s.run.value, j)
    case AlterStep =>
      s.run.Some? && s.run.value.phase.Copy1? && AllDone(s.run.value.phase.done, |s.run.value.log|)
    case WToRStep =>
      && s.run.Some? && s.run.value.phase.Copy2? && AllDone(s.run.value.phase.done, |s.run.value.log|)
      && s.pool.backup.ended
    case FinishStep => s.run.Some? && s.run.value.phase.Ending?
  }

  predicate CanCopy<P>(s: State<P>, r: Run<P>, j: nat) {
    && (r.phase.Copy1? || r.phase.Copy2?)
    && j < |r.phase.done| && r.phase.done[j] < |r.log|
    && Base(s, r.phase) + j < |s.content|
  }

  function Go<P>(s: State<P>, ph: Phase): State<P>
    requires s.run.Some?
  {
    s.(run := Some(s.run.value.(phase := ph)))
  }

  /** One look of waitWBakers: stay on a WRITING baker that is busy, else go on; leave after the last. */
  function Scanned<P>(s: State<P>, next: nat, first: bool): Phase
    requires next <= Count(s)
  {
    if next == Count(s) then
      if first then Copy1(Zeros(Half(s))) else Copy2(Zeros(Count(s) - Half(s)))
    else
      var n' := if !s.pool.infos[next].reading && s.pool.infos[next].busy then next else next + 1;
      if first then Wait1(n') else Wait2(n')
  }

  ghost function Apply<P>(s: State<P>, st: Step<P>): State<P>
    requires Enabled(s, st)
  {
    match st
    case AllocStep(thr) => s.(pool := Alloc(s.pool, thr))
    case FreeStep(k) => s.(pool := Free(s.pool, k))
    case Launch(log, id) => s.(run := Some(Run(log, id, Begin)))
    case SkipStep => Go(s, Ending)
    case MoveStep => Go(s.(pool := Move(s.pool, Ids(Half(s)))), Wait1(0))
    case ScanStep =>
      var ph := s.run.value.phase;
      Go(s, Scanned(s, ph.next, ph.Wait1?))
    case CopyStep(j) =>
      var r := s.run.value;
      var k := Base(s, r.phase) + j;
      var done := r.phase.done[j := r.phase.done[j] + 1];
      Go(s.(content := s.content[k := s.content[k] + [r.log[r.phase.done[j]]]]),
         if r.phase.Copy1? then Copy1(done) else Copy2(done))
    case AlterStep =>
      var r := s.run.value;
      Go(s.(pool := Alter(s.pool, r.id), history := s.history + r.log), Wait2(0))
    case WToRStep => Go(s.(pool := WToR(s.pool)), Ending)
    case FinishStep => s.(run := None)
  }

  // ----- the invariant

  /** No WRITING baker below `bound` is busy. */
  ghost predicate Quiet(p: Pool, bound: nat) {
    forall k :: 0 <= k < |p.infos| && k < bound && !p.infos[k].reading ==> !p.infos[k].busy
  }

  /** The WRITING bakers are exactly those in [lo, hi). */
  ghost predicate WritingExactly(p: Pool, lo: nat, hi: nat) {
    forall k :: 0 <= k < |p.infos| ==> (!p.infos[k].reading <==> lo <= k < hi)
  }

  /** What baker k shows when everything published is applied to it. */
  function Version<P>(s: State<P>, k: nat): seq<P>
    requires k < |s.base|
  {
    s.base[k] + s.history
  }

  /** Every READING baker holds all that was published and carries its timestamp. */
  ghost predicate Published<P>(s: State<P>) {
    |s.content| == |s.base| == Count(s) &&
    forall k :: 0 <= k < Count(s) && s.pool.infos[k].reading ==>
      s.content[k] == Version(s, k) && s.pool.infos[k].timestamp == s.pool.maxtime
  }

  ghost predicate Resting(p: Pool) {
    p.valid.ended && p.backup.nodes == [] && p.backup.ended && WritingExactly(p, 0, 0)
  }

  /** A baker that held `version` has had the first d packages of the log applied to it. */
  ghost predicate Applied<P>(log: seq<P>, d: nat, version: seq<P>, content: seq<P>) {
    d <= |log| && content == version + log[..d]
  }

  /** It is to hold `version`, and all but the first d packages are still to be applied. */
  ghost predicate ToApply<P>(log: seq<P>, d: nat, version: seq<P>, content: seq<P>) {
    d <= |log| && content + log[d..] == version
  }

  lemma ApplyOneMore<P>(log: seq<P>, d: nat, version: seq<P>, content: seq<P>)
    requires d < |log|
    ensures Applied(log, d, version, content) ==> Applied(log, d + 1, version, content + [log[d]])
    ensures ToApply(log, d, version, content) ==> ToApply(log, d + 1, version, content + [log[d]])
  {
    assert log[..d + 1] == log[..d] + [log[d]] && log[d..] == [log[d]] + log[d + 1..];
  }

  ghost predicate PhaseInv<P>(s: State<P>, r: Run<P>)
    requires |s.content| == |s.base| == Count(s)
  {
    match r.phase
    case Begin => Resting(s.pool)
    case Ending => Resting(s.pool)
    case Wait1(next) =>
      && next <= Count(s) && WritingExactly(s.pool, 0, Half(s)) && Quiet(s.pool, next)
      && s.pool.valid.ended && 0 < Count(s)
      && forall k :: 0 <= k < Half(s) ==> s.content[k] == Version(s, k)
    case Copy1(done) =>
      && WritingExactly(s.pool, 0, Half(s)) && Quiet(s.pool, Count(s))
      && s.pool.valid.ended && 0 < Count(s) && |done| == Half(s)
      && forall k :: 0 <= k < Half(s) ==> Applied(r.log, done[k], Version(s, k), s.content[k])
    case Wait2(next) =>
      && next <= Count(s) && WritingExactly(s.pool, Half(s), Count(s)) && Quiet(s.pool, next)
      && s.pool.backup.ended && 0 < Count(s) && s.pool.valid.timestamp == s.pool.maxtime
      && forall k :: Half(s) <= k < Count(s) ==> s.content[k] + r.log == Version(s, k)
    case Copy2(done) =>
      && WritingExactly(s.pool, Half(s), Count(s)) && Quiet(s.pool, Count(s))
      && s.pool.backup.ended && 0 < Count(s) && s.pool.valid.timestamp == s.pool.maxtime
      && |done| == Count(s) - Half(s)
      && forall j :: 0 <= j < |done| ==> ToApply(r.log, done[j], Version(s, Half(s) + j), s.content[Half(s) + j])
  }

  ghost predicate Inv<P>(s: State<P>) {
    && BakerPool.Inv(s.pool)
    && Published(s)
    && (s.run.None? ==> Resting(s.pool))
    && (s.run.Some? ==> PhaseInv(s, s.run.value))
  }

  /** Freshly loaded, whatever each replica holds. */
  ghost predicate Init<P>(s: State<P>, timestamp: int) {
    s.pool == Loaded(Count(s), timestamp) && |s.base| == Count(s) && s.content == s.base && s.history == [] && s.run.None?
  }

  lemma InitInv<P>(s: State<P>, timestamp: int)
    requires Init(s, timestamp)
    ensures Inv(s)
  {
    LoadedInv(Count(s), timestamp);
    assert forall k :: 0 <= k < Count(s) ==> Version(s, k) == s.base[k];
  }

  /** What a reader step may do to the pool under a running cycle. */
  ghost predicate ReaderFrame(p: Pool, q: Pool) {
    && BakerPool.Inv(q) && |q.infos| == |p.infos| && q.maxtime == p.maxtime
    && (forall k :: 0 <= k < |p.infos| ==>
          && q.infos[k].reading == p.infos[k].reading && q.infos[k].timestamp == p.infos[k].timestamp
          && (!p.infos[k].reading && !p.infos[k].busy ==> !q.infos[k].busy))
    && (p.valid.ended ==> q.valid.ended) && (p.backup.ended ==> q.backup.ended)
    && q.valid.timestamp == p.valid.timestamp
  }

  lemma ReaderStepFrame<P>(s: State<P>, st: Step<P>)
    requires Inv(s) && Enabled(s, st) && (st.AllocStep? || st.FreeStep?)
    ensures ReaderFrame(s.pool, Apply(s, st).pool)
  {
    if st.AllocStep? {
      AllocInv(s.pool, st.thr);
      assert s.pool.valid.nodes[0] in s.pool.valid.nodes;
    } else {
      FreeInv(s.pool, st.k);
    }
  }

  lemma FramedInv<P>(s: State<P>, q: Pool)
    requires Inv(s) && ReaderFrame(s.pool, q)
    ensures Inv(s.(pool := q))
  {
    var t := s.(pool := q);
    assert forall k :: 0 <= k < |s.base| ==> Version(t, k) == Version(s, k);
    if s.run.None? {
      FramedResting(s, q);
    } else {
      assert PhaseInv(t, s.run.value) by { FramedPhase(s, s.run.value, q); }
    }
  }

  lemma HeadIn(ns: seq<nat>)
    requires ns != []
    ensures ns[0] in ns
  {
  }

  lemma FramedResting<P>(s: State<P>, q: Pool)
    requires BakerPool.Inv(s.pool) && ReaderFrame(s.pool, q) && Resting(s.pool)
    ensures Resting(q)
  {
    if q.backup.nodes != [] { HeadIn(q.backup.nodes); }
  }

  lemma FramedPhase<P>(s: State<P>, r: Run<P>, q: Pool)
    requires BakerPool.Inv(s.pool) && Published(s) && ReaderFrame(s.pool, q) && PhaseInv(s, r)
    ensures PhaseInv(s.(pool := q), r)
  {
    if r.phase.Begin? || r.phase.Ending? { FramedResting(s, q); }
  }

  lemma IdsMember(n: nat)
    ensures NoDup(Ids(n)) && forall k: nat :: k in Ids(n) <==> k < n
  {
    forall k: nat | k < n ensures k in Ids(n) {
      assert Ids(n)[k] == k;
    }
  }

  lemma MoveStepInv<P>(s: State<P>)
    requires Inv(s) && Enabled(s, MoveStep)
    ensures Inv(Apply(s, MoveStep))
  {
    IdsMember(Half(s));
  }

  lemma CopyFrame<P>(s: State<P>, j: nat)
    requires Inv(s) && Enabled(s, CopyStep(j))
    ensures var t, k := Apply(s, CopyStep(j)), Base(s, s.run.value.phase) + j;
            && t.pool == s.pool && t.base == s.base && Published(t) && !s.pool.infos[k].reading
            && (forall i :: 0 <= i < Count(s) ==> Version(t, i) == Version(s, i))
            && forall i :: 0 <= i < Count(s) && i != k ==> t.content[i] == s.content[i]
  {
  }

  lemma Copy1StepInv<P>(s: State<P>, j: nat)
    requires Inv(s) && Enabled(s, CopyStep(j)) && s.run.value.phase.Copy1?
    ensures Inv(Apply(s, CopyStep(j)))
  {
    CopyFrame(s, j);
    ApplyOneMore(s.run.value.log, s.run.value.phase.done[j], Version(s, j), s.content[j]);
  }

  lemma Copy2StepInv<P>(s: State<P>, j: nat)
    requires Inv(s) && Enabled(s, CopyStep(j)) && s.run.value.phase.Copy2?
    ensures Inv(Apply(s, CopyStep(j)))
  {
    CopyFrame(s, j);
    Copy2Phase(s, s.run.value, j);
  }

  lemma Copy2Phase<P>(s: State<P>, r: Run<P>, j: nat)
    requires s.run == Some(r) && r.phase.Copy2? && |s.content| == |s.base| == Count(s)
    requires PhaseInv(s, r) && Enabled(s, CopyStep(j))
    ensures var t := Apply(s, CopyStep(j));
            |t.content| == |t.base| == Count(t) && PhaseInv(t, t.run.value)
  {
    var k := Half(s) + j;
    ApplyOneMore(r.log, r.phase.done[j], Version(s, k), s.content[k]);
  }

  lemma AlterStepInv<P>(s: State<P>)
    requires Inv(s) && Enabled(s, AlterStep)
    ensures Inv(Apply(s, AlterStep))
  {
    var log := s.run.value.log;
    AlterInv(s.pool, s.run.value.id);
    assert log[..|log|] == log;
    forall k | 0 <= k < Count(s) ensures Version(Apply(s, AlterStep), k) == Version(s, k) + log {
      assert s.base[k] + (s.history + log) == (s.base[k] + s.history) + log;
    }
  }

  /** WToR_Group finds a null-terminated backup list that holds every WRITING baker, and leaves them all
      READING in a null-terminated valid list. */
  lemma WToRStepInv<P>(s: State<P>)
    requires Inv(s) && Enabled(s, WToRStep)
    ensures s.pool.backup.ended && s.pool.backup.nodes != []
    ensures forall k :: 0 <= k < Count(s) ==> (k in s.pool.backup.nodes <==> !s.pool.infos[k].reading)
    ensures Inv(Apply(s, WToRStep)) && Resting(Apply(s, WToRStep).pool)
  {
    var log := s.run.value.log;
    WToRInv(s.pool);
    assert s.pool.backup.nodes != [] by {
      assert !s.pool.infos[Half(s)].reading;
    }
    forall k | Half(s) <= k < Count(s) ensures s.content[k] == Version(s, k) {
      var j := k - Half(s);
      assert s.run.value.phase.done[j] == |log|;
      assert log[|log|..] == [];
      assert s.content[Half(s) + j] + [] == Version(s, k);
    }
  }

  lemma ReaderStepInv<P>(s: State<P>, st: Step<P>)
    requires Inv(s) && Enabled(s, st) && (st.AllocStep? || st.FreeStep?)
    ensures Inv(Apply(s, st))
  {
    ReaderStepFrame(s, st);
    FramedInv(s, Apply(s, st).pool);
  }

  lemma CopyStepInv<P>(s: State<P>, j: nat)
    requires Inv(s) && Enabled(s, CopyStep(j))
    ensures Inv(Apply(s, CopyStep(j)))
  {
    if s.run.value.phase.Copy1? { Copy1StepInv(s, j); } else { Copy2StepInv(s, j); }
  }

  lemma ScanStepInv<P>(s: State<P>)
    requires Inv(s) && Enabled(s, ScanStep)
    ensures Inv(Apply(s, ScanStep))
  {
  }

  lemma EndStepInv<P>(s: State<P>, st: Step<P>)
    requires Inv(s) && Enabled(s, st) && (st.Launch? || st.SkipStep? || st.FinishStep?)
    ensures Inv(Apply(s, st))
  {
  }

  /** Every step keeps the invariant. */
  lemma StepInv<P>(s: State<P>, st: Step<P>)
    requires Inv(s) && Enabled(s, st)
    ensures Inv(Apply(s, st))
  {
    match st
    case AllocStep(_) => ReaderStepInv(s, st);
    case FreeStep(_) => ReaderStepInv(s, st);
    case MoveStep => MoveStepInv(s);
    case ScanStep => ScanStepInv(s);
    case CopyStep(j) => CopyStepInv(s, j);
    case AlterStep => AlterStepInv(s);
    case WToRStep => WToRStepInv(s);
    case _ => EndStepInv(s, st);
  }

  /** Whatever the readers did, the exporter can take its next step: the bakers it moves are all READING and
      the list WToR_Group walks is null-terminated. */
  lemma CycleNeverStuck<P>(s: State<P>)
    requires Inv(s) && s.run.Some?
    ensures match s.run.value.phase
            case Begin => Enabled(s, SkipStep) || Enabled(s, MoveStep)
            case Wait1(_) => Enabled(s, ScanStep)
            case Copy1(done) => Enabled(s, AlterStep) || exists j :: Enabled(s, CopyStep(j))
            case Wait2(_) => Enabled(s, ScanStep)
            case Copy2(done) => Enabled(s, WToRStep) || exists j :: Enabled(s, CopyStep(j))
            case Ending => Enabled(s, FinishStep)
  {
    IdsMember(Half(s));
    var r := s.run.value;
    if (r.phase.Copy1? || r.phase.Copy2?) && !AllDone(r.phase.done, |r.log|) {
      var j :| 0 <= j < |r.phase.done| && r.phase.done[j] != |r.log|;
      assert Enabled(s, CopyStep(j));
    }
  }

  // ----- what readers see

  /** A step changes a baker's content only while the baker is idle and WRITING, that is, in no reader's hands
      and in no list a reader takes from. */
  lemma ContentStep<P>(s: State<P>, st: Step<P>, k: nat)
    requires Inv(s) && Enabled(s, st) && k < Count(s)
    requires Apply(s, st).content[k] != s.content[k]
    ensures !s.pool.infos[k].busy && !s.pool.infos[k].reading
    ensures k in s.pool.backup.nodes
    ensures !Apply(s, st).pool.infos[k].busy
  {
  }

  /** A reader is given a baker that holds what it held at the start and all that was published since, and the
      timestamp of that. */
  lemma AllocGivesPublished<P>(s: State<P>, thr: int)
    requires Inv(s) && Enabled(s, AllocStep(thr))
    ensures var k := s.pool.valid.nodes[0];
            var s' := Apply(s, AllocStep(thr));
            && k < |s.base| && s'.pool.infos[k].busy && s'.content[k] == Version(s, k)
            && s'.pool.infos[k].timestamp == s.pool.maxtime
  {
    assert s.pool.valid.nodes[0] in s.pool.valid.nodes;
  }

  ghost predicate Next<P>(s: State<P>, st: Step<P>, t: State<P>) {
    Enabled(s, st) && t == Apply(s, st)
  }

  ghost predicate StepAt<P>(ss: seq<State<P>>, sts: seq<Step<P>>, i: nat) {
    i + 1 < |ss| && i < |sts| && Next(ss[i], sts[i], ss[i + 1])
  }

  /** A finite run: every state but the first is the previous one after an enabled step. */
  ghost predicate IsRun<P>(ss: seq<State<P>>, sts: seq<Step<P>>) {
    |ss| == |sts| + 1 && Inv(ss[0]) && forall i: nat :: i < |sts| ==> StepAt(ss, sts, i)
  }

  lemma NextInv<P>(s: State<P>, st: Step<P>, t: State<P>)
    requires Inv(s) && Next(s, st, t)
    ensures Inv(t) && Count(t) == Count(s) && t.base == s.base
  {
    StepInv(s, st);
  }

  lemma {:induction false} RunInv<P>(ss: seq<State<P>>, sts: seq<Step<P>>, i: nat)
    requires IsRun(ss, sts) && i < |ss|
    ensures Inv(ss[i]) && Count(ss[i]) == Count(ss[0]) && ss[i].base == ss[0].base
  {
    if i > 0 {
      RunInv(ss, sts, i - 1);
      assert StepAt(ss, sts, i - 1);
      NextInv(ss[i - 1], sts[i - 1], ss[i]);
    }
  }

  ghost predicate Shows<P>(s: State<P>, k: nat, version: seq<P>) {
    k < |s.content| && s.content[k] == version
  }

  ghost predicate Busy<P>(s: State<P>, k: nat) {
    k < Count(s) && s.pool.infos[k].busy
  }

  lemma TakenAt<P>(ss: seq<State<P>>, sts: seq<Step<P>>, i: nat, k: nat)
    requires IsRun(ss, sts) && i < |sts| && sts[i].AllocStep?
    requires k < Count(ss[i]) && !Busy(ss[i], k) && Busy(ss[i + 1], k)
    ensures k < |ss[0].base| && Shows(ss[i + 1], k, ss[0].base[k] + ss[i].history)
  {
    RunInv(ss, sts, i);
    assert StepAt(ss, sts, i);
    FirstOfSession(ss[i], sts[i], ss[i + 1], k);
  }

  lemma KeptAt<P>(ss: seq<State<P>>, sts: seq<Step<P>>, i: nat, k: nat, version: seq<P>)
    requires IsRun(ss, sts) && i < |sts| && Busy(ss[i], k) && Shows(ss[i], k, version)
    ensures Shows(ss[i + 1], k, version)
  {
    RunInv(ss, sts, i);
    assert StepAt(ss, sts, i);
    SessionStep(ss[i], sts[i], ss[i + 1], k);
  }

  /** Across any run, a baker that one reader keeps from state i to state j shows what it held at the start and what was
      published when it was allocated, however many cycles go on meanwhile. */
  lemma {:induction false} ReadersSeeOneVersion<P>(ss: seq<State<P>>, sts: seq<Step<P>>, i: nat, j: nat, k: nat)
    requires IsRun(ss, sts) && i < j < |ss| && sts[i].AllocStep? && k < Count(ss[i]) && !Busy(ss[i], k)
    requires forall m :: i < m <= j ==> Busy(ss[m], k)
    ensures k < |ss[0].base| && Shows(ss[j], k, ss[0].base[k] + ss[i].history)
    decreases j
  {
    if j == i + 1 {
      TakenAt(ss, sts, i, k);
    } else {
      ReadersSeeOneVersion(ss, sts, i, j - 1, k);
      KeptAt(ss, sts, j - 1, k, ss[0].base[k] + ss[i].history);
    }
  }

  lemma FirstOfSession<P>(s: State<P>, st: Step<P>, t: State<P>, k: nat)
    requires Inv(s) && Next(s, st, t) && st.AllocStep? && k < Count(s) && k < Count(t)
    requires !s.pool.infos[k].busy && t.pool.infos[k].busy
    ensures k < |t.content| && k < |s.base| && t.content[k] == Version(s, k)
  {
    AllocGivesPublished(s, st.thr);
  }

  lemma SessionStep<P>(s: State<P>, st: Step<P>, t: State<P>, k: nat)
    requires Inv(s) && Next(s, st, t) && k < Count(s) && s.pool.infos[k].busy
    ensures k < |t.content| && t.content[k] == s.content[k]
  {
    if t.content[k] != s.content[k] {
      ContentStep(s, st, k);
    }
  }

  lemma GrowsAt<P>(ss: seq<State<P>>, sts: seq<Step<P>>, i: nat)
    requires IsRun(ss, sts) && i < |sts|
    ensures ss[i].history <= ss[i + 1].history
  {
    assert StepAt(ss, sts, i);
  }

  /** Versions only grow: a published version is a prefix of every later one. */
  lemma {:induction false} HistoryGrows<P>(ss: seq<State<P>>, sts: seq<Step<P>>, i: nat, j: nat)
    requires IsRun(ss, sts) && i <= j < |ss|
    ensures ss[i].history <= ss[j].history
    decreases j
  {
    if i < j {
      HistoryGrows(ss, sts, i, j - 1);
      GrowsAt(ss, sts, j - 1);
    }
  }

  /** Two READING bakers show the same if and only if they held the same when the server started. */
  lemma AlikeIffBegunAlike<P>(s: State<P>, i: nat, j: nat)
    requires Inv(s) && i < Count(s) && j < Count(s) && s.pool.infos[i].reading && s.pool.infos[j].reading
    ensures s.content[i] == s.content[j] <==> s.base[i] == s.base[j]
  {
    var a, b := s.base[i], s.base[j];
    if s.content[i] == s.content[j] {
      assert |a| == |b| && (a + s.history)[..|a|] == a && (b + s.history)[..|b|] == b;
    }
  }

  /** The documented order: WToR_Group before the second export.  As long as one process of it has a package to apply, it
      then writes into a baker that is READING and that readers are given, and that does not show what was published. */
  lemma WToRFirstIsWrong<P>(s: State<P>, j: nat)
    requires Inv(s) && s.run.Some? && s.run.value.phase.Copy2? && Enabled(s, CopyStep(j))
    ensures var t, k := s.(pool := WToR(s.pool)), Half(s) + j;
            && Enabled(t, CopyStep(j)) && k < Count(t) && t.pool.infos[k].reading && k in t.pool.valid.nodes
            && t.content[k] != Version(t, k) && Apply(t, CopyStep(j)).content[k] != t.content[k]
  {
    var k, log, d := Half(s) + j, s.run.value.log, s.run.value.phase.done[j];
    assert k in s.pool.backup.nodes by {
      assert 0 <= k < |s.pool.infos| && !s.pool.infos[k].busy && !s.pool.infos[k].reading;
    }
    assert |log[d..]| > 0 && |Version(s, k)| == |s.content[k]| + |log[d..]|;
  }

  // ----- waitWBakers

  /** Idle-and-WRITING is stable: only alter_group and WToR_Group make such a baker anything else. */
  lemma IdleWritingStable<P>(s: State<P>, st: Step<P>, k: nat)
    requires Inv(s) && Enabled(s, st) && k < Count(s)
    requires !s.pool.infos[k].reading && !s.pool.infos[k].busy
    requires !st.AlterStep? && !st.WToRStep?
    ensures Count(Apply(s, st)) == Count(s)
    ensures !Apply(s, st).pool.infos[k].reading && !Apply(s, st).pool.infos[k].busy
  {
    if st.AllocStep? {
      assert s.pool.valid.nodes[0] in s.pool.valid.nodes;
    }
  }

  /** When the one-at-a-time scan returns, no WRITING baker is busy, although the lock was released between
      any two looks. */
  lemma ScanSound<P>(s: State<P>)
    requires Inv(s) && Enabled(s, ScanStep)
    requires var ph := Apply(s, ScanStep).run.value.phase; ph.Copy1? || ph.Copy2?
    ensures forall k :: 0 <= k < Count(s) && !s.pool.infos[k].reading ==>
              !s.pool.infos[k].busy && k in s.pool.backup.nodes
  {
  }

  // ----- half of the replicas go on serving

  function Reading(p: Pool): set<nat> {
    set k | 0 <= k < |p.infos| && p.infos[k].reading
  }

  function Range(lo: nat, hi: nat): set<nat> {
    if lo < hi then Range(lo, hi - 1) + {hi - 1} else {}
  }

  lemma {:induction false} RangeFacts(lo: nat, hi: nat)
    requires lo <= hi
    ensures |Range(lo, hi)| == hi - lo && forall k: nat :: k in Range(lo, hi) <==> lo <= k < hi
  {
    if lo < hi {
      RangeFacts(lo, hi - 1);
    }
  }

  /** In every phase at least half of the bakers are READING, which is one at least when there are two or more.  While the
      first half is written the others are, while the second half is written the first half is, and all are otherwise. */
  lemma HalfServes<P>(s: State<P>)
    requires Inv(s)
    ensures |Reading(s.pool)| >= |s.pool.infos| / 2
    ensures |s.pool.infos| >= 2 ==> exists k :: 0 <= k < |s.pool.infos| && s.pool.infos[k].reading
    ensures var n := |s.pool.infos|;
            Reading(s.pool) ==
            if s.run.None? || s.run.value.phase.Begin? || s.run.value.phase.Ending? then Range(0, n)
            else if s.run.value.phase.Wait1? || s.run.value.phase.Copy1? then Range(n / 2, n)
            else Range(0, n / 2)
  {
    var n := |s.pool.infos|;
    if s.run.None? || s.run.value.phase.Begin? || s.run.value.phase.Ending? {
      ReadingIs(s.pool, 0, n);
    } else if s.run.value.phase.Wait1? || s.run.value.phase.Copy1? {
      ReadingIs(s.pool, n / 2, n);
    } else {
      ReadingIs(s.pool, 0, n / 2);
    }
  }

  lemma ReadingIs(p: Pool, lo: nat, hi: nat)
    requires lo <= hi <= |p.infos| && forall k :: 0 <= k < |p.infos| ==> (p.infos[k].reading <==> lo <= k < hi)
    ensures Reading(p) == Range(lo, hi) && |Reading(p)| == hi - lo
    ensures lo < hi ==> exists k :: 0 <= k < |p.infos| && p.infos[k].reading
  {
    RangeFacts(lo, hi);
    forall k: nat ensures k in Reading(p) <==> k in Range(lo, hi) {}
    assert lo < hi ==> p.infos[lo].reading;
  }

  /** Which bakers the two exports write to: first those numbered below n / 2, and after alter_group the others. */
  lemma BatchesAreHalves<P>(s: State<P>, st: Step<P>, k: nat)
    requires Inv(s) && Enabled(s, st) && k < |s.pool.infos|
    ensures st.MoveStep? ==> (!Apply(s, st).pool.infos[k].reading <==> k < |s.pool.infos| / 2)
    ensures st.AlterStep? ==> (!Apply(s, st).pool.infos[k].reading <==> |s.pool.infos| / 2 <= k)
    ensures st.CopyStep? && Apply(s, st).content[k] != s.content[k] ==>
              (k < |s.pool.infos| / 2 <==> s.run.value.phase.Copy1?)
  {
    IdsMember(|s.pool.infos| / 2);
  }

  /** What alter_group publishes is published under the mem-server's id. */
  lemma PublishedUnderId<P>(s: State<P>, k: nat)
    requires Inv(s) && Enabled(s, AlterStep) && k < Count(s)
    ensures var t := Apply(s, AlterStep);
            && t.pool.maxtime == s.run.value.id && t.pool.valid.timestamp == s.run.value.id
            && t.history == s.history + s.run.value.log
            && t.pool.infos[k].reading == !s.pool.infos[k].reading
            && t.pool.infos[k].timestamp == if s.pool.infos[k].reading then s.pool.infos[k].timestamp else s.run.value.id
  {
  }

  // ----- the exporter gets on

  function Rank(ph: Phase): nat {
    match ph
    case Begin => 5
    case Wait1(_) => 4
    case Copy1(_) => 3
    case Wait2(_) => 2
    case Copy2(_) => 1
    case Ending => 0
  }

  /** How many packages are still to be applied. */
  function Rest(done: seq<nat>, size: nat): int {
    if done == [] then 0 else size - done[0] + Rest(done[1..], size)
  }

  lemma {:induction false} RestLess(done: seq<nat>, size: nat, j: nat)
    requires j < |done|
    ensures Rest(done[j := done[j] + 1], size) == Rest(done, size) - 1
  {
    if j == 0 {
      assert done[0 := done[0] + 1][1..] == done[1..];
    } else {
      assert done[j := done[j] + 1][1..] == done[1..][j - 1 := done[j] + 1];
      RestLess(done[1..], size, j - 1);
    }
  }

  lemma {:induction false} RestPositive(done: seq<nat>, size: nat)
    requires forall j :: 0 <= j < |done| ==> done[j] <= size
    ensures 0 <= Rest(done, size)
  {
    if done != [] { RestPositive(done[1..], size); }
  }

  function Ahead<P>(s: State<P>, r: Run<P>): int {
    match r.phase
    case Wait1(next) => Count(s) - next
    case Copy1(done) => Rest(done, |r.log|)
    case Wait2(next) => Count(s) - next
    case Copy2(done) => Rest(done, |r.log|)
    case _ => 0
  }

  lemma AheadPositive<P>(s: State<P>)
    requires Inv(s) && s.run.Some?
    ensures 0 <= Ahead(s, s.run.value)
  {
    match s.run.value.phase
    case Copy1(done) => RestPositive(done, |s.run.value.log|);
    case Copy2(done) => RestPositive(done, |s.run.value.log|);
    case _ =>
  }

  /** The scan waits: it stands at a baker that is WRITING and that a reader still has. */
  predicate Waits<P>(s: State<P>, st: Step<P>) {
    st.ScanStep? && s.run.Some? && (s.run.value.phase.Wait1? || s.run.value.phase.Wait2?)
    && s.run.value.phase.next < Count(s)
    && !s.pool.infos[s.run.value.phase.next].reading && s.pool.infos[s.run.value.phase.next].busy
  }

  predicate Own<P>(st: Step<P>) {
    st.SkipStep? || st.MoveStep? || st.ScanStep? || st.CopyStep? || st.AlterStep? || st.WToRStep?
  }

  /** Each step of the exporter brings it nearer to the end of the cycle, unless it waits for a reader: then, and only
      then, the step changes nothing.  So with CycleNeverStuck every cycle ends once the readers have given back the
      bakers they had when it took them. */
  lemma ExporterGetsOn<P>(s: State<P>, st: Step<P>)
    requires Inv(s) && Enabled(s, st) && Own(st)
    ensures Apply(s, st).run.Some?
    ensures var r, r' := s.run.value, Apply(s, st).run.value;
            if Waits(s, st) then Apply(s, st) == s
            else Rank(r'.phase) < Rank(r.phase) ||
                 (Rank(r'.phase) == Rank(r.phase) && Ahead(Apply(s, st), r') < Ahead(s, r))
  {
    if st.CopyStep? { RestLess(s.run.value.phase.done, |s.run.value.log|, st.j); }
  }

  /** Whenever a baker is idle and READING a reader can have one, and whoever has one can give it back. */
  lemma ReadersAreServed<P>(s: State<P>, thr: int, k: nat)
    requires Inv(s) && k < Count(s)
    ensures !s.pool.infos[k].busy && s.pool.infos[k].reading ==> Enabled(s, AllocStep(thr))
    ensures s.pool.infos[k].busy ==> Enabled(s, FreeStep(k))
  {
    assert s.pool.valid.nodes != [] ==> s.pool.valid.nodes[0] in s.pool.valid.nodes;
  }

  /** Readers neither hold it up otherwise nor set it back. */
  lemma ReadersDoNot<P>(s: State<P>, st: Step<P>)
    requires Inv(s) && Enabled(s, st) && (st.AllocStep? || st.FreeStep?)
    ensures Apply(s, st).run == s.run && Count(Apply(s, st)) == Count(s)
    ensures forall k :: 0 <= k < Count(s) && !s.pool.infos[k].reading && !s.pool.infos[k].busy ==>
              !Apply(s, st).pool.infos[k].busy
    ensures st.FreeStep? ==> !Apply(s, st).pool.infos[st.k].busy
  {
    ReaderStepFrame(s, st);
  }
}
