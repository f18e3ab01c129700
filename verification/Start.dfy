/** How the server starts: with the mem-servers that are found on disk, and a creator unless they are to be cleaned up
    first. */
module Start {
  import opened Ordered
  import opened Times
  import opened Descriptors
  import opened Lifecycle
  import opened LifecycleInv
  import opened MainLoop
  import opened WakeUp
  import opened Firing
  import Press = BackPressure
  import N = Names

  /** A directory whose name looks like a mem-server's: the rank of the name, and the id it tells. */
  datatype Found = Found(name: int, id: int)

  function FoundDesc(f: Found): Desc {
    Desc(f.name, f.id, 0, false, false, StatusSet(Cleanup, 0), None, Time(0, 0))
  }

  /** The directories in the order they are read. */
  function Scanned(fs: seq<Found>, now: Time, age: int, max: int): Mgr {
    if fs == [] then Mgr([], [], map[], 0, None, now, age, max)
    else Add(Scanned(fs[..|fs| - 1], now, age, max), |fs| - 1, FoundDesc(fs[|fs| - 1]))
  }

  /** setupTimeout for each. */
  function SetupAll(m: Mgr, hs: seq<Handle>): Mgr
    decreases |hs|
  {
    if hs == [] then m else
      SetupAll(if hs[0] in m.d then SetupTimeout(m, hs[0]) else m, hs[1..])
  }

  /** eggRWSMemServerManager_new */
  function NewManager(fs: seq<Found>, now: Time, age: int, max: int): Mgr {
    var m := Scanned(fs, now, age, max);
    SetupAll(m, m.byName)
  }

  /** Where a creator begins. */
  function FirstId(now: Time, age: int, off: int): int
    requires 0 < age
  {
    Instant(age, now.sec, off, now.sec)
  }

  /** The main thread before its first pass.  `wait` is the opposite of noWaitCleanUpMemServer. */
  function StartLoop(fs: seq<Found>, wait: bool, now: Time, age: int, max: int, off: int, name: int): State
    requires 0 < age
  {
    var m := NewManager(fs, now, age, max);
    if wait && fs != [] then State(m, Check, true, 0)
    else if |fs| in m.d then State(m, Check, false, 0)
    else State(NewCreator(m, |fs|, FirstId(now, age, off), name), Check, false, 0)
  }

  /** Everything found is to be cleaned up, and nobody uses it. */
  ghost predicate Fresh(m: Mgr, k: nat) {
    Inv(m) && AllFresh(m, k)
  }

  ghost predicate AllFresh(m: Mgr, k: nat) {
    && m.slot == None && m.n == k && (forall h: Handle :: h in m.d <==> h < k)
    && forall h :: h in m.d ==> FreshDesc(m.d[h])
  }

  ghost predicate FreshDesc(r: Desc) {
    r.si.stat.Cleanup? && !r.creator && r.users == 0 && r.si.ttl == 0 && ValidTime(r.timeout)
  }

  lemma NothingFound(m: Mgr)
    requires m == Mgr([], [], map[], 0, None, m.now, m.age, m.max) && 0 < m.age
    ensures Fresh(m, 0)
  {
    assert m.d.Keys == {};
  }

  lemma AddAllFresh(m: Mgr, k: nat, f: Found)
    requires AllFresh(m, k)
    ensures AllFresh(Add(m, k, FoundDesc(f)), k + 1)
  {
    assert FreshDesc(FoundDesc(f));
  }

  lemma AddFresh(m: Mgr, k: nat, f: Found)
    requires Fresh(m, k)
    ensures Fresh(Add(m, k, FoundDesc(f)), k + 1)
  {
    assert Inv(Add(m, k, FoundDesc(f))) by { AddInv(m, k, FoundDesc(f)); }
    AddAllFresh(m, k, f);
  }

  lemma {:induction false} ScannedFresh(fs: seq<Found>, now: Time, age: int, max: int)
    requires 0 < age
    ensures Fresh(Scanned(fs, now, age, max), |fs|)
    ensures var m := Scanned(fs, now, age, max); m.now == now && m.age == age && m.max == max
  {
    if fs == [] {
      NothingFound(Mgr([], [], map[], 0, None, now, age, max));
    } else {
      var k := |fs| - 1;
      ScannedFresh(fs[..k], now, age, max);
      AddFresh(Scanned(fs[..k], now, age, max), k, fs[k]);
    }
  }

  lemma {:induction false} SetupFresh(m: Mgr, hs: seq<Handle>, k: nat)
    requires Fresh(m, k) && ValidTime(m.now)
    ensures var q := SetupAll(m, hs);
            Fresh(q, k) && q.now == m.now && q.age == m.age && q.max == m.max
    decreases |hs|
  {
    if hs != [] {
      if hs[0] in m.d { SetupTimeoutInv(m, hs[0]); }
      SetupFresh(if hs[0] in m.d then SetupTimeout(m, hs[0]) else m, hs[1..], k);
    }
  }

  lemma NewManagerFresh(fs: seq<Found>, now: Time, age: int, max: int)
    requires 0 < age && ValidTime(now)
    ensures var m := NewManager(fs, now, age, max);
            Fresh(m, |fs|) && m.now == now && m.age == age && m.max == max
  {
    ScannedFresh(fs, now, age, max);
    var m := Scanned(fs, now, age, max);
    SetupFresh(m, m.byName, |fs|);
  }

  lemma FreshHealthy(m: Mgr, k: nat, b: int)
    requires Fresh(m, k) && ClockOk(m.now) && 1 <= m.max <= b && k <= b
    ensures TimesOk(m) && WakeOk(m, 0) && Press.Bounded(State(m, Check, true, 0), b)
  {
    assert Press.Creators(m) == {};
  }

  lemma CreatorRecords(m: Mgr, k: nat, id: int, name: int)
    requires k !in m.d
    ensures var q := NewCreator(m, k, id, name);
            && q == m.(byName := q.byName, byTimeout := q.byTimeout, d := q.d, n := m.n + 1)
            && q.d == m.d[k := CreatorDesc(id, name).(timeout := Later(0, m.now))]
  {
  }

  lemma CreatorIdle(m: Mgr, k: nat, id: int, name: int)
    requires AllFresh(m, k) && ValidTime(m.now)
    ensures var q := NewCreator(m, k, id, name);
            q.slot == None && TimesOk(q) && forall h :: h in q.d ==> q.d[h].users == 0
  {
    CreatorRecords(m, k, id, name);
  }

  lemma CreatorHealthy(m: Mgr, k: nat, id: int, name: int, b: int)
    requires Fresh(m, k) && ClockOk(m.now) && 1 <= m.max <= b && k + 1 <= b
    ensures var q := NewCreator(m, k, id, name);
            && Inv(q) && q.slot == None && TimesOk(q) && WakeOk(q, 0) && Press.Bounded(State(q, Check, false, 0), b)
            && forall h :: h in q.d ==> q.d[h].users == 0
  {
    var q := NewCreator(m, k, id, name);
    assert Inv(q) by { NewCreatorInv(m, k, id, name); }
    assert WakeOk(q, 0) by {
      FreshHealthy(m, k, b);
      NewCreatorWake(m, k, id, name, 0);
    }
    assert Press.Bounded(State(q, Check, false, 0), b) by { CreatorBounded(m, k, id, name, b); }
    CreatorIdle(m, k, id, name);
  }

  lemma CreatorBounded(m: Mgr, k: nat, id: int, name: int, b: int)
    requires AllFresh(m, k) && ClockOk(m.now) && 1 <= m.max <= b && k + 1 <= b
    ensures Press.Bounded(State(NewCreator(m, k, id, name), Check, false, 0), b)
  {
    var q := NewCreator(m, k, id, name);
    CreatorRecords(m, k, id, name);
    assert Press.Creators(q) == {k};
  }

  /** Whatever is found on disk, and whether it is cleaned up first or not, the server starts with its invariant,
      nobody parked, and within any bound that is not less than the maximum and than what was found and a creator. */
  lemma StartsWell(fs: seq<Found>, wait: bool, now: Time, age: int, max: int, off: int, name: int, b: int)
    requires 0 < age && ClockOk(now) && 1 <= max <= b && |fs| + (if wait && fs != [] then 0 else 1) <= b
    ensures var s := StartLoop(fs, wait, now, age, max, off, name);
            && Inv(s.m) && s.m.slot == None && s.pending == 0 && TimesOk(s.m) && WakeOk(s.m, 0) && Press.Bounded(s, b)
            && forall h :: h in s.m.d ==> s.m.d[h].users == 0
  {
    var m := NewManager(fs, now, age, max);
    NewManagerFresh(fs, now, age, max);
    if wait && fs != [] {
      FreshHealthy(m, |fs|, b);
    } else {
      CreatorHealthy(m, |fs|, FirstId(now, age, off), name, b);
    }
  }

  // ----- names

  ghost predicate NamesAre(m: Mgr, fs: seq<Found>) {
    forall h :: h in m.d ==> h < |fs| && m.d[h].name == fs[h].name
  }

  lemma {:induction false} ScannedNames(fs: seq<Found>, now: Time, age: int, max: int)
    ensures NamesAre(Scanned(fs, now, age, max), fs)
  {
    if fs != [] {
      ScannedNames(fs[..|fs| - 1], now, age, max);
    }
  }

  lemma {:induction false} SetupNames(m: Mgr, hs: seq<Handle>, fs: seq<Found>)
    requires NamesAre(m, fs)
    ensures NamesAre(SetupAll(m, hs), fs)
    decreases |hs|
  {
    if hs != [] {
      SetupNames(if hs[0] in m.d then SetupTimeout(m, hs[0]) else m, hs[1..], fs);
    }
  }

  /** A directory has no two entries of one name. */
  ghost predicate DirsDistinct(fs: seq<Found>) {
    forall i, j :: 0 <= i < j < |fs| ==> fs[i].name != fs[j].name
  }

  /** No directory has a name that the creator will give; or there is no creator yet; or there are so many directories
      that it is deleted at once. */
  ghost predicate NamesOk(fs: seq<Found>, wait: bool, now: Time, age: int, max: int, off: int)
    requires 0 < age
  {
    (wait && fs != []) || |fs| + 1 >= max || forall i :: 0 <= i < |fs| ==> N.NeverGives(FirstId(now, age, off), age, fs[i].name)
  }

  ghost predicate FoundAre(m: Mgr, fs: seq<Found>, now: Time, age: int, max: int) {
    Fresh(m, |fs|) && NamesAre(m, fs) && m.now == now && m.age == age && m.max == max
  }

  lemma ManagerFound(fs: seq<Found>, now: Time, age: int, max: int)
    requires 0 < age && ValidTime(now)
    ensures FoundAre(NewManager(fs, now, age, max), fs, now, age, max)
  {
    NewManagerFresh(fs, now, age, max);
    ScannedNames(fs, now, age, max);
    var m := Scanned(fs, now, age, max);
    SetupNames(m, m.byName, fs);
  }

  lemma FoundDistinct(m: Mgr, fs: seq<Found>)
    requires DirsDistinct(fs) && NamesAre(m, fs)
    ensures N.Distinct(m)
  {
    forall g, h | g in m.d && h in m.d && g != h && !m.d[g].creator && !m.d[h].creator
      ensures m.d[g].name != m.d[h].name
    {
      if g < h {} else {}
    }
  }

  /** The names are all right from the start if and only if NamesOk. */
  lemma StartUniqueIff(fs: seq<Found>, wait: bool, now: Time, age: int, max: int, off: int, name: int)
    requires 0 < age && age * 60 <= now.sec && ValidTime(now) && DirsDistinct(fs)
    ensures N.Unique(StartLoop(fs, wait, now, age, max, off, name), off) <==> NamesOk(fs, wait, now, age, max, off)
  {
    var m := NewManager(fs, now, age, max);
    ManagerFound(fs, now, age, max);
    FoundDistinct(m, fs);
    if !(wait && fs != []) {
      CreatorUniqueIff(m, fs, now, age, max, off, name);
    }
  }

  ghost predicate WithCreator(q: Mgr, fs: seq<Found>, id: int) {
    && (forall i: nat :: i in q.d <==> i <= |fs|)
    && q.d[|fs|].creator && q.d[|fs|].id == id
    && forall i: nat :: i < |fs| ==> !q.d[i].creator && q.d[i].name == fs[i].name
  }

  lemma CreatorAdded(m: Mgr, fs: seq<Found>, id: int, name: int)
    requires AllFresh(m, |fs|) && NamesAre(m, fs)
    ensures WithCreator(NewCreator(m, |fs|, id, name), fs, id)
  {
    CreatorRecords(m, |fs|, id, name);
    assert forall i: nat :: i < |fs| ==> i in m.d && FreshDesc(m.d[i]);
  }

  lemma AheadIff(q: Mgr, fs: seq<Found>, id: int)
    requires WithCreator(q, fs, id)
    ensures N.Ahead(q) <==> forall i :: 0 <= i < |fs| ==> N.NeverGives(id, q.age, fs[i].name)
  {
    forall i | 0 <= i < |fs| && N.Ahead(q) ensures N.NeverGives(id, q.age, fs[i].name) {
      assert i in q.d && |fs| in q.d;
    }
  }

  lemma CreatorOrderly(q: Mgr, fs: seq<Found>, now: Time, off: int)
    requires 0 < q.age && q.age * 60 <= now.sec && q.now == now && DirsDistinct(fs)
    requires WithCreator(q, fs, FirstId(now, q.age, off))
    ensures N.Orderly(q, off)
  {
    N.BeginsAligned(q.age, now.sec, off);
    forall g, h | g in q.d && h in q.d && g != h && !q.d[g].creator && !q.d[h].creator
      ensures q.d[g].name != q.d[h].name
    {
      if g < h {} else {}
    }
  }

  lemma CreatorUniqueIff(m: Mgr, fs: seq<Found>, now: Time, age: int, max: int, off: int, name: int)
    requires 0 < age && age * 60 <= now.sec && FoundAre(m, fs, now, age, max) && DirsDistinct(fs)
    ensures N.Unique(State(NewCreator(m, |fs|, FirstId(now, age, off), name), Check, false, 0), off) <==>
            |fs| + 1 >= max || forall i :: 0 <= i < |fs| ==> N.NeverGives(FirstId(now, age, off), age, fs[i].name)
  {
    var id := FirstId(now, age, off);
    var q := NewCreator(m, |fs|, id, name);
    assert WithCreator(q, fs, id) by { CreatorAdded(m, fs, id, name); }
    assert q.now == now && q.age == age && q.max == max && q.n == |fs| + 1 by { CreatorRecords(m, |fs|, id, name); }
    assert N.Orderly(q, off) by { CreatorOrderly(q, fs, now, off); }
    AheadIff(q, fs, id);
  }

  /** The mem-servers there are at the start are those found, and nothing else but a creator. */
  ghost predicate Begun(m: Mgr, fs: seq<Found>) {
    && (forall i: nat :: i < |fs| ==> i in m.d && !m.d[i].creator && m.d[i].name == fs[i].name)
    && forall h :: h in m.d && !m.d[h].creator ==> h < |fs| && m.d[h].si.stat.Cleanup?
  }

  lemma StartNames(fs: seq<Found>, wait: bool, now: Time, age: int, max: int, off: int, name: int)
    requires 0 < age && ValidTime(now)
    ensures Begun(StartLoop(fs, wait, now, age, max, off, name).m, fs)
  {
    var m := NewManager(fs, now, age, max);
    ManagerFound(fs, now, age, max);
    FoundBegun(m, fs);
    if !(wait && fs != []) { CreatorBegun(m, fs, FirstId(now, age, off), name); }
  }

  lemma FoundBegun(m: Mgr, fs: seq<Found>)
    requires AllFresh(m, |fs|) && NamesAre(m, fs)
    ensures Begun(m, fs)
  {
    assert forall h :: h in m.d ==> FreshDesc(m.d[h]);
  }

  lemma CreatorBegun(m: Mgr, fs: seq<Found>, id: int, name: int)
    requires Begun(m, fs) && |fs| !in m.d
    ensures Begun(NewCreator(m, |fs|, id, name), fs)
  {
    CreatorRecords(m, |fs|, id, name);
  }

  // ----- the records

  ghost predicate RecordsAre(m: Mgr, fs: seq<Found>) {
    forall h :: h in m.d ==> h < |fs| && m.d[h] == FoundDesc(fs[h]).(timeout := m.d[h].timeout)
  }

  lemma {:induction false} ScannedRecords(fs: seq<Found>, now: Time, age: int, max: int)
    ensures RecordsAre(Scanned(fs, now, age, max), fs)
  {
    if fs != [] {
      ScannedRecords(fs[..|fs| - 1], now, age, max);
    }
  }

  lemma {:induction false} SetupRecords(m: Mgr, hs: seq<Handle>, fs: seq<Found>)
    requires RecordsAre(m, fs)
    ensures var q := SetupAll(m, hs);
            && RecordsAre(q, fs) && q.d.Keys == m.d.Keys && q.now == m.now
            && forall h :: h in m.d ==> q.d[h].timeout == if h in hs then m.now else m.d[h].timeout
    decreases |hs|
  {
    if hs != [] {
      assert hs == [hs[0]] + hs[1..];
      SetupRecords(if hs[0] in m.d then SetupTimeout(m, hs[0]) else m, hs[1..], fs);
    }
  }

  /** Every directory that is found has a mem-server that is to be cleaned up, nothing else, and that is due at once. */
  lemma FoundExactly(fs: seq<Found>, now: Time, age: int, max: int, h: nat)
    requires 0 < age && ValidTime(now) && h < |fs|
    ensures var m := NewManager(fs, now, age, max);
            && h in m.d && m.n == |fs| && m.slot == None
            && m.d[h] == Desc(fs[h].name, fs[h].id, 0, false, false, Instruct(Cleanup, false, false, false, 0, DumpingT),
                              None, now)
            && IsDue(m, h)
  {
    ManagerFound(fs, now, age, max);
    var m := Scanned(fs, now, age, max);
    ScannedFresh(fs, now, age, max);
    ScannedRecords(fs, now, age, max);
    SetupRecords(m, m.byName, fs);
    assert h in m.d && h in m.byName;
    DueIffNotAfter(now, now);
  }

  /** The creator begins with the instant that the clock is in: at most a period ago, as long as local time is not before
      the epoch. */
  lemma BeginsNow(now: Time, age: int, off: int)
    requires 0 < age && 0 <= now.sec + off && now.sec != 0
    ensures var id := FirstId(now, age, off);
            id <= now.sec < id + age * 60 && Aligned(id, off, age * 60)
  {
    InstantIsRecent(age, now.sec, off, now.sec);
  }
}
