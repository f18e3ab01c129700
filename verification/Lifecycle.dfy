/** The mem-server manager on values: its descriptors, the two lists they are kept in, the dump slot, and what
    each trigger and each mutex-held function does to them. */
module Lifecycle {
  import opened Ordered
  import opened Times
  import opened Descriptors

  datatype Mgr = Mgr(byName: seq<Handle>, byTimeout: seq<Handle>, d: map<Handle, Desc>, n: int,
                         slot: Option<Handle>, now: Time, age: int, max: int)

  // ----- lists

  function Add(m: Mgr, h: Handle, x: Desc): Mgr {
    var d := m.d[h := x];
    m.(d := d, n := m.n + 1,
       byTimeout := Insert(m.byTimeout, d, ByTimeout, h),
       byName := Insert(m.byName, d, ByName, h))
  }

  function Del(m: Mgr, h: Handle): Mgr {
    m.(d := m.d - {h}, n := m.n - 1, byTimeout := Remove(m.byTimeout, h), byName := Remove(m.byName, h))
  }

  /** Writes the record of h, moving it in no list. */
  function Set(m: Mgr, h: Handle, x: Desc): Mgr {
    m.(d := m.d[h := x])
  }

  /** Writes the record of h and calls setupTimeout: the timeout becomes now + timeToLive, and the descriptor
      moves to its place in the list. */
  function Put(m: Mgr, h: Handle, x: Desc): Mgr {
    var d := m.d[h := x.(timeout := Later(x.si.ttl, m.now))];
    m.(d := d, byTimeout := Insert(Remove(m.byTimeout, h), d, ByTimeout, h))
  }

  function SetupTimeout(m: Mgr, h: Handle): Mgr
    requires h in m.d
  {
    Put(m, h, m.d[h])
  }

  function WakeOne(m: Mgr, h: Handle): Mgr {
    if h in m.d && m.d[h].si.retry then
      Put(m, h, m.d[h].(si := m.d[h].si.(retry := false, ttl := 0)))
    else m
  }

  /** signalRetry, over the descriptors in `hs`. */
  function WakeAll(m: Mgr, hs: seq<Handle>): Mgr
    decreases |hs|
  {
    if hs == [] then m else WakeAll(WakeOne(m, hs[0]), hs[1..])
  }

  function SignalRetry(m: Mgr): Mgr {
    WakeAll(m, m.byName)
  }

  // ----- the dump slot

  predicate Candidate(d: map<Handle, Desc>, h: Handle) {
    h in d && (d[h].si.stat.Cleanup? || d[h].si.stat.Normal?)
  }

  function FirstCandidate(hs: seq<Handle>, d: map<Handle, Desc>): Option<Handle> {
    if hs == [] then None else if Candidate(d, hs[0]) then Some(hs[0]) else FirstCandidate(hs[1..], d)
  }

  predicate AskDump(m: Mgr, h: Handle) {
    match m.slot
    case None => FirstCandidate(m.byName, m.d) == Some(h)
    case Some(x) => x == h
  }

  function UnaskDump(m: Mgr, h: Handle): Mgr {
    if m.slot == Some(h) then SignalRetry(m.(slot := None)) else m
  }

  // ----- triggers

  /** `ok` is the outcome of fork, of the check on the child, and of opening the client. */
  function Fork(m: Mgr, h: Handle, ok: bool): Mgr
    requires h in m.d && m.d[h].next.Some?
  {
    var x := m.d[h];
    if ok then Put(m, h, x.(thread := true, si := x.next.value, next := None))
    else Put(m, h, x.(si := x.si.(retry := true, ttl := FORK_RETRY)))
  }

  predicate Granted(m: Mgr, h: Handle)
    requires h in m.d
  {
    m.d[h].users == 0 && AskDump(m, h)
  }

  function Unflagged(x: Desc): Desc {
    if x.thread then x else x.(si := x.si.(w := false, r := false))
  }

  /** The record eggRWSMemServerDescriptor_dumping leaves: dumping with one more user, or parked. */
  function Dumped(m: Mgr, h: Handle): Desc
    requires h in m.d
  {
    var x := m.d[h];
    Unflagged(if Granted(m, h) then x.(si := StatusSet(Dumping, DUMPING_MIN), users := x.users + 1)
              else x.(si := x.si.(w := false, r := true, retry := true, ttl := FOREVER)))
  }

  function DumpStart(m: Mgr, h: Handle): Mgr
    requires h in m.d
  {
    Put(if Granted(m, h) then m.(slot := Some(h)) else m, h, Dumped(m, h))
  }

  function Halt(m: Mgr, h: Handle): Mgr
    requires h in m.d
  {
    if m.d[h].users > 0 then Put(m, h, m.d[h].(si := m.d[h].si.(retry := true, ttl := FOREVER)))
    else
      var m' := UnaskDump(m, h);
      if h in m'.d then Put(m', h, m'.d[h].(si := StatusSet(Halting, HALTING_MIN))) else m'
  }

  /** doCreateMemServer, by the creator c; the new descriptor h is to be called `name`. */
  function NewDesc(id: int, name: int, age: int): Desc {
    Desc(name, id, 0, false, false, StatusSet(Unforked, 0), Some(StatusSet(Normal, age * 60)), Time(0, 0))
  }

  /** The creator moves on to the next period. */
  function NextId(x: Desc, age: int): Desc {
    x.(id := x.id + age * 60, si := x.si.(ttl := age * 60))
  }

  function Create(m: Mgr, c: Handle, h: Handle, name: int): Mgr
    requires c in m.d && h !in m.d
  {
    Put(SetupTimeout(Add(m, h, NewDesc(m.d[c].id, name, m.age)), h), c, NextId(m.d[c], m.age))
  }

  // ----- users, and the main loop's other operations

  function AddUsers(m: Mgr, h: Handle, k: int): Mgr
    requires h in m.d
  {
    Set(m, h, m.d[h].(users := m.d[h].users + k))
  }

  /** The last descriptor in name order that takes writes. */
  function Writable(hs: seq<Handle>, d: map<Handle, Desc>): Option<Handle> {
    if hs == [] then None else
      var h := hs[|hs| - 1];
      if h in d && !d[h].creator && d[h].si.w then Some(h) else Writable(hs[..|hs| - 1], d)
  }

  /** isTooHeavy zeroes the time to live of the writable descriptor, and does not move it in the timeout list. */
  function TooHeavy(m: Mgr): Mgr {
    match Writable(m.byName, m.d)
    case None => m
    case Some(h) => if h in m.d then Set(m, h, m.d[h].(si := m.d[h].si.(ttl := 0))) else m
  }

  function FirstCreator(hs: seq<Handle>, d: map<Handle, Desc>): Option<Handle> {
    if hs == [] then None else if hs[0] in d && d[hs[0]].creator then Some(hs[0]) else FirstCreator(hs[1..], d)
  }

  function DeleteCreator(m: Mgr): Mgr {
    match FirstCreator(m.byName, m.d)
    case None => m
    case Some(c) => Del(m, c)
  }

  /** A fresh creator's record. */
  function CreatorDesc(id: int, name: int): Desc {
    Desc(name, id, 0, false, true, Instruct(Unforked, false, false, false, 0, CreateT), None, Time(0, 0))
  }

  function NewCreator(m: Mgr, c: Handle, id: int, name: int): Mgr
    requires c !in m.d
  {
    SetupTimeout(Add(m, c, CreatorDesc(id, name)), c)
  }

  // ----- invariants

  /** Both lists hold every descriptor once, the one in name order, the other in order of timeout seconds. */
  ghost predicate Lists(m: Mgr) {
    && m.n == |m.byName| == |m.byTimeout|
    && Listing(m.byName, m.d, ByName) && Listing(m.byTimeout, m.d, ByTimeout)
  }

  ghost predicate DescOk(x: Desc, age: int) {
    && 0 <= x.users && (x.si.ttl == FOREVER ==> x.si.retry)
    && if x.creator then
         x.si == Instruct(Unforked, false, false, false, x.si.ttl, CreateT) && x.users == 0
       else match x.si.stat
         case Unforked =>
           && x.si.trigger == ForkT && !x.si.w && !x.si.r && !x.thread && x.users == 0 && x.si.ttl != FOREVER
           && x.next == Some(StatusSet(Normal, age * 60))
         case Normal => x.si.trigger == DumpingT && x.thread && (x.si.w ==> !x.si.retry)
         case Cleanup => x.si.trigger == DumpingT && !x.thread && !x.si.w && !x.si.r && x.users == 0
         case Dumping => x.si.trigger == HaltingT && !x.si.w
         case Halting => x.si.trigger == EndT && !x.si.w && !x.si.r && !x.si.retry && x.users == 0
  }

  ghost predicate Descs(m: Mgr) {
    0 < m.age && forall h :: h in m.d ==> DescOk(m.d[h], m.age)
  }

  /** A descriptor is DUMPING iff it has the slot. */
  ghost predicate SlotOk(m: Mgr) {
    && (forall h :: h in m.d ==> (m.d[h].si.stat.Dumping? <==> m.slot == Some(h)))
    && (m.slot.Some? ==> m.slot.value in m.d)
  }

  ghost predicate Inv(m: Mgr) {
    Lists(m) && Descs(m) && SlotOk(m)
  }

  // ----- the lists under Put, Add, Del and SignalRetry

  lemma PutLists(m: Mgr, h: Handle, x: Desc)
    requires Lists(m) && h in m.d && x.name == m.d[h].name
    ensures Lists(Put(m, h, x))
  {
    var x' := x.(timeout := Later(x.si.ttl, m.now));
    ResortListing(m.byTimeout, h, m.d, x', ByTimeout);
    KeepListing(m.byName, m.d, m.d[h := x'], ByName);
  }

  lemma AddLists(m: Mgr, h: Handle, x: Desc)
    requires Lists(m) && h !in m.d
    ensures Lists(Add(m, h, x))
  {
    AddListing(m.byTimeout, h, m.d, x, ByTimeout);
    AddListing(m.byName, h, m.d, x, ByName);
  }

  lemma DelLists(m: Mgr, h: Handle)
    requires Lists(m) && h in m.d
    ensures Lists(Del(m, h))
  {
    DelListing(m.byTimeout, h, m.d, ByTimeout);
    DelListing(m.byName, h, m.d, ByName);
  }

  function Woken(x: Desc, now: Time): Desc {
    if x.si.retry then x.(si := x.si.(retry := false, ttl := 0), timeout := Later(0, now)) else x
  }

  /** m and q differ at most in the order of timeouts and in descriptors' contents. */
  ghost predicate SameButTimes(m: Mgr, q: Mgr) {
    q == m.(byTimeout := q.byTimeout, d := q.d) && q.d.Keys == m.d.Keys
  }

  lemma WakeOneFacts(m: Mgr, h: Handle)
    requires Lists(m) && h in m.d
    ensures var q := WakeOne(m, h);
            && Lists(q) && SameButTimes(m, q)
            && q.d[h] == Woken(m.d[h], m.now) && forall x :: x in m.d && x != h ==> q.d[x] == m.d[x]
  {
    if m.d[h].si.retry {
      PutLists(m, h, m.d[h].(si := m.d[h].si.(retry := false, ttl := 0)));
    }
  }

  lemma {:induction false} WakeAllFacts(m: Mgr, hs: seq<Handle>)
    requires Lists(m) && NoDup(hs) && forall h :: h in hs ==> h in m.d
    ensures var q := WakeAll(m, hs);
            && Lists(q) && SameButTimes(m, q)
            && forall h :: h in m.d ==> q.d[h] == if h in hs then Woken(m.d[h], m.now) else m.d[h]
    decreases |hs|
  {
    if hs != [] {
      var q := WakeOne(m, hs[0]);
      WakeOneFacts(m, hs[0]);
      assert hs == [hs[0]] + hs[1..];
      WakeAllFacts(q, hs[1..]);
    }
  }

  /** After a signal, everything that asked to be retried has its timeout set to now, and nothing asks any more. */
  lemma SignalWakesAll(m: Mgr)
    requires Lists(m)
    ensures var q := SignalRetry(m);
            && Lists(q) && SameButTimes(m, q)
            && (forall h :: h in m.d ==> q.d[h] == Woken(m.d[h], m.now))
            && (forall h :: h in m.d && m.d[h].si.retry ==> q.d[h].timeout == m.now)
            && (forall h :: h in q.d ==> !q.d[h].si.retry)
  {
    WakeAllFacts(m, m.byName);
  }
}
