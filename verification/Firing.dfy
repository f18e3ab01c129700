/** What the loop that fires due triggers leaves behind.  The timeout list is in order of seconds only, so a descriptor
    whose second has come can stand, not due yet, in front of one that is due, and the loop stops at it. */
module Firing {
  import opened Ordered
  import opened Times
  import opened Descriptors
  import opened Lifecycle
  import opened LifecycleInv
  import opened MainLoop

  /** What was left open in one firing: the address of a new descriptor, the rank of its name, fork's outcome. */
  datatype Choice = Choice(born: Handle, name: int, ok: bool)

  /** Firing the head of the timeout list again and again; None when something is fired that is not due. */
  ghost function FireAll(m: Mgr, log: seq<Choice>): Option<Mgr> {
    if log == [] then Some(m) else
      var c := log[|log| - 1];
      match FireAll(m, log[..|log| - 1])
      case None => None
      case Some(q) =>
        if q.byTimeout != [] && IsDue(q, q.byTimeout[0]) && Triggerable(q, q.byTimeout[0], c.born)
        then Some(Trig(q, q.byTimeout[0], c.born, c.name, c.ok)) else None
  }

  lemma FireMore(m: Mgr, log: seq<Choice>, q: Mgr, c: Choice)
    requires FireAll(m, log) == Some(q) && q.byTimeout != [] && IsDue(q, q.byTimeout[0])
    requires Triggerable(q, q.byTimeout[0], c.born)
    ensures FireAll(m, log + [c]) == Some(Trig(q, q.byTimeout[0], c.born, c.name, c.ok))
  {
    assert (log + [c])[..|log|] == log;
  }

  lemma HeadIsEarliest(m: Mgr)
    requires Inv(m) && (m.byTimeout != [] ==> !IsDue(m, m.byTimeout[0]))
    ensures forall h :: h in m.d ==> m.now.sec <= m.d[h].timeout.sec
  {
    forall h | h in m.d ensures m.now.sec <= m.d[h].timeout.sec {
      assert h in m.byTimeout;
      var i :| 0 <= i < |m.byTimeout| && m.byTimeout[i] == h;
      assert Key(m.d, ByTimeout, m.byTimeout[0]) <= Key(m.d, ByTimeout, m.byTimeout[i]);
      assert m.byTimeout[0] in m.d;
    }
  }

  ghost predicate TimesOk(m: Mgr) {
    forall h :: h in m.d ==> ValidTime(m.d[h].timeout)
  }

  ghost predicate NothingDue(m: Mgr) {
    forall h :: h in m.d ==> !IsDue(m, h)
  }

  // ----- the condition

  /** Its second has come and its microsecond has not: the loop stops at it. */
  predicate Blocks(m: Mgr, h: Handle) {
    h in m.d && !IsDue(m, h) && m.d[h].timeout.sec <= m.now.sec
  }

  ghost predicate Before(s: seq<Handle>, x: Handle, y: Handle) {
    exists i, j :: 0 <= i < j < |s| && s[i] == x && s[j] == y
  }

  ghost predicate Behind(m: Mgr, h: Handle) {
    exists b :: Blocks(m, b) && Before(m.byTimeout, b, h)
  }

  ghost predicate Clear(m: Mgr) {
    forall h :: h in m.d ==> !Blocks(m, h)
  }

  /** Something blocks that no signal will make due. */
  ghost predicate Lasting(m: Mgr) {
    exists b :: Blocks(m, b) && !m.d[b].si.retry
  }

  /** The loop will get as far as giving the dump slot back, and so as far as signalling. */
  ghost predicate Freed(m: Mgr) {
    m.slot.Some? && IsDue(m, m.slot.value) && m.d[m.slot.value].users == 0 && !Behind(m, m.slot.value)
  }

  ghost predicate Stuck(m: Mgr) {
    exists h :: IsDue(m, h) && Behind(m, h)
  }

  ghost predicate CreatorDue(m: Mgr) {
    exists c :: IsDue(m, c) && m.d[c].creator
  }

  /** Nothing blocks; or the slot will be given back and the signal makes due whatever blocks; or nothing due stands
      behind something that blocks, and no creator is due, whose new mem-server would come to stand there. */
  ghost predicate LeavesNothing(m: Mgr) {
    Clear(m) || (if Freed(m) then !Lasting(m) else !Stuck(m) && !CreatorDue(m))
  }

  // ----- the order of the list

  lemma BeforeRemove(s: seq<Handle>, g: Handle, x: Handle, y: Handle)
    requires NoDup(s) && g in s && x != g && y != g
    ensures Before(Remove(s, g), x, y) <==> Before(s, x, y)
  {
    var k := RemoveIsDrop(s, g);
    var t := Remove(s, g);
    if i, j :| 0 <= i < j < |s| && s[i] == x && s[j] == y {
      assert t[if i < k then i else i - 1] == x && t[if j < k then j else j - 1] == y;
    }
    if i, j :| 0 <= i < j < |t| && t[i] == x && t[j] == y {
      assert s[if i < k then i else i + 1] == x && s[if j < k then j else j + 1] == y;
    }
  }

  lemma BeforeInsert(s: seq<Handle>, k: nat, g: Handle, x: Handle, y: Handle)
    requires k <= |s| && x != g && y != g
    ensures Before(InsertAt(s, k, g), x, y) <==> Before(s, x, y)
  {
    var t := InsertAt(s, k, g);
    if i, j :| 0 <= i < j < |s| && s[i] == x && s[j] == y {
      assert t[if i < k then i else i + 1] == x && t[if j < k then j else j + 1] == y;
    }
    if i, j :| 0 <= i < j < |t| && t[i] == x && t[j] == y {
      assert s[if i < k then i else i - 1] == x && s[if j < k then j else j - 1] == y;
    }
  }

  lemma InsertedBehind(s: seq<Handle>, d: map<Handle, Desc>, o: Order, g: Handle, x: Handle)
    requires Sorted(s, d, o) && x in s && Key(d, o, x) <= Key(d, o, g)
    ensures Before(Insert(s, d, o, g), x, g)
  {
    var k, t := Pos(s, d, o, Key(d, o, g)), Insert(s, d, o, g);
    var j :| 0 <= j < |s| && s[j] == x;
    assert j < k;
    assert t[j] == x && t[k] == g;
  }

  /** Setting up one timeout moves nothing else. */
  lemma PutOrder(m: Mgr, g: Handle, r: Desc)
    requires Lists(m) && g in m.d
    ensures forall x, y :: x != g && y != g ==>
              (Before(Put(m, g, r).byTimeout, x, y) <==> Before(m.byTimeout, x, y))
  {
    var d := Put(m, g, r).d;
    var s := Remove(m.byTimeout, g);
    forall x, y | x != g && y != g ensures Before(Put(m, g, r).byTimeout, x, y) <==> Before(m.byTimeout, x, y) {
      BeforeRemove(m.byTimeout, g, x, y);
      BeforeInsert(s, Pos(s, d, ByTimeout, Key(d, ByTimeout, g)), g, x, y);
    }
  }

  /** A timeout goes behind everything whose second is not later. */
  lemma PutBehind(m: Mgr, g: Handle, r: Desc, x: Handle)
    requires Lists(m) && g in m.d && x in m.d && x != g && m.d[x].timeout.sec <= Later(r.si.ttl, m.now).sec
    ensures Before(Put(m, g, r).byTimeout, x, g)
  {
    var d := Put(m, g, r).d;
    RemoveFacts(m.byTimeout, g);
    RemoveSorted(m.byTimeout, g, m.d, ByTimeout);
    SortedAgree(Remove(m.byTimeout, g), m.d, d, ByTimeout);
    InsertedBehind(Remove(m.byTimeout, g), d, ByTimeout, g, x);
  }

  // ----- triggers that signal nobody

  /** What firing g does to the others when it gives back no slot: nothing, except that a creator adds one that is due
      and stands behind whatever blocks. */
  ghost predicate Quiet(m: Mgr, g: Handle, q: Mgr)
    requires g in m.d
  {
    && q.now == m.now && (q.slot == m.slot || (m.slot == None && q.slot == Some(g)))
    && (forall x :: x in m.d && x != g ==> x in q.d && q.d[x] == m.d[x])
    && (g in q.d ==> q.now.sec < q.d[g].timeout.sec && ValidTime(q.d[g].timeout))
    && (forall x, y :: x in m.d && y in m.d && x != g && y != g ==>
          (Before(q.byTimeout, x, y) <==> Before(m.byTimeout, x, y)))
    && Newborn(m, g, q)
  }

  ghost predicate Newborn(m: Mgr, g: Handle, q: Mgr)
    requires g in m.d
  {
    if m.d[g].creator then
      exists n :: n !in m.d && q.d.Keys == m.d.Keys + {n} && !q.d[n].creator && q.d[n].timeout == q.now
                  && forall b :: Blocks(m, b) ==> Before(q.byTimeout, b, n)
    else q.d.Keys <= m.d.Keys
  }

  lemma NowIsDue(m: Mgr, h: Handle)
    requires h in m.d && m.d[h].timeout == m.now && ValidTime(m.now)
    ensures IsDue(m, h)
  {
    DueIffNotAfter(m.now, m.now);
  }

  lemma LaterIsNotDue(m: Mgr, h: Handle)
    requires h in m.d && m.now.sec < m.d[h].timeout.sec && ValidTime(m.now) && ValidTime(m.d[h].timeout)
    ensures !IsDue(m, h)
  {
    DueIffNotAfter(m.d[h].timeout, m.now);
  }

  lemma QuietBlocks(m: Mgr, g: Handle, q: Mgr)
    requires ValidTime(m.now) && IsDue(m, g) && Quiet(m, g, q)
    ensures forall x :: Blocks(q, x) <==> Blocks(m, x)
    ensures g in q.d ==> !IsDue(q, g)
    ensures forall x :: x in m.d && x != g ==> (IsDue(q, x) <==> IsDue(m, x))
    ensures forall x :: x in q.d && x !in m.d ==> IsDue(q, x) && !q.d[x].creator
  {
    if g in q.d { LaterIsNotDue(q, g); }
    forall x | x in q.d && x !in m.d ensures IsDue(q, x) && !q.d[x].creator {
      NowIsDue(q, x);
    }
    forall x ensures Blocks(q, x) <==> Blocks(m, x) {
      if x == g {} else if x in m.d {} else {}
    }
  }

  lemma QuietBehind(m: Mgr, g: Handle, q: Mgr, x: Handle)
    requires IsDue(m, g) && Quiet(m, g, q) && (forall b :: Blocks(q, b) <==> Blocks(m, b)) && x in m.d && x != g
    ensures Behind(q, x) <==> Behind(m, x)
  {
  }

  lemma QuietStuck(m: Mgr, g: Handle, q: Mgr)
    requires ValidTime(m.now) && IsDue(m, g) && !Behind(m, g) && Quiet(m, g, q) && !Clear(m)
    ensures Stuck(q) || CreatorDue(q) <==> Stuck(m) || CreatorDue(m)
  {
    QuietBlocks(m, g, q);
    forall x | x in m.d && x != g ensures Behind(q, x) <==> Behind(m, x) {
      QuietBehind(m, g, q, x);
    }
    if m.d[g].creator {
      var n :| n in q.d && n !in m.d && forall b :: Blocks(m, b) ==> Before(q.byTimeout, b, n);
      var b :| Blocks(m, b);
      assert Behind(q, n);
    }
  }

  lemma QuietFreed(m: Mgr, g: Handle, q: Mgr)
    requires ValidTime(m.now) && IsDue(m, g) && Quiet(m, g, q) && !(m.slot == Some(g) && m.d[g].users == 0)
    requires m.slot.Some? ==> m.slot.value in m.d
    ensures Freed(q) <==> Freed(m)
  {
    QuietBlocks(m, g, q);
    if m.slot.Some? && m.slot.value != g { QuietBehind(m, g, q, m.slot.value); }
  }

  lemma QuietKeeps(m: Mgr, g: Handle, q: Mgr)
    requires ValidTime(m.now) && IsDue(m, g) && !Behind(m, g) && Quiet(m, g, q)
    requires !(m.slot == Some(g) && m.d[g].users == 0) && (m.slot.Some? ==> m.slot.value in m.d)
    ensures LeavesNothing(q) <==> LeavesNothing(m)
  {
    assert Freed(q) <==> Freed(m) by { QuietFreed(m, g, q); }
    assert (Clear(q) <==> Clear(m)) && (Lasting(q) <==> Lasting(m)) by {
      QuietBlocks(m, g, q);
      assert forall b :: Blocks(m, b) ==> b in m.d && b != g && q.d[b] == m.d[b];
    }
    if !Clear(m) { QuietStuck(m, g, q); }
  }

  /** A record with time left to live goes to a later second. */
  lemma PutQuiet(m: Mgr, k: Mgr, g: Handle, r: Desc)
    requires Lists(m) && ClockOk(m.now) && g in m.d && !m.d[g].creator && r.si.ttl > 0
    requires k == m.(slot := k.slot) && (k.slot == m.slot || (m.slot == None && k.slot == Some(g)))
    ensures Quiet(m, g, Put(k, g, r))
  {
    PutOrder(k, g, r);
  }

  lemma ForkQuiet(m: Mgr, g: Handle, ok: bool)
    requires Inv(m) && ClockOk(m.now) && g in m.d && m.d[g].si.trigger.ForkT?
    ensures Quiet(m, g, Fork(m, g, ok))
  {
    assert DescOk(m.d[g], m.age);
    var x := m.d[g];
    if ok {
      PutQuiet(m, m, g, x.(thread := true, si := x.next.value, next := None));
    } else {
      PutQuiet(m, m, g, x.(si := x.si.(retry := true, ttl := FORK_RETRY)));
    }
  }

  lemma DumpStartQuiet(m: Mgr, g: Handle)
    requires Inv(m) && ClockOk(m.now) && g in m.d && m.d[g].si.trigger.DumpingT?
    ensures Quiet(m, g, DumpStart(m, g))
  {
    assert DescOk(m.d[g], m.age);
    if Granted(m, g) { GrantedFree(m, g); }
    PutQuiet(m, if Granted(m, g) then m.(slot := Some(g)) else m, g, Dumped(m, g));
  }

  lemma DelQuiet(m: Mgr, g: Handle)
    requires Lists(m) && g in m.d && !m.d[g].creator
    ensures Quiet(m, g, Del(m, g))
  {
    forall x, y | x != g && y != g ensures Before(Del(m, g).byTimeout, x, y) <==> Before(m.byTimeout, x, y) {
      BeforeRemove(m.byTimeout, g, x, y);
    }
  }

  lemma CreateOrder(m: Mgr, c: Handle, n: Handle, name: int)
    requires Lists(m) && c in m.d && n !in m.d
    ensures forall x, y :: x in m.d && y in m.d && x != c && y != c ==>
              (Before(Create(m, c, n, name).byTimeout, x, y) <==> Before(m.byTimeout, x, y))
  {
    var r := NewDesc(m.d[c].id, name, m.age);
    var m1 := Add(m, n, r);
    var m2 := SetupTimeout(m1, n);
    assert Lists(m1) by { AddLists(m, n, r); }
    assert Lists(m2) by { PutLists(m1, n, r); }
    forall x, y | x in m.d && y in m.d && x != c && y != c
      ensures Before(Create(m, c, n, name).byTimeout, x, y) <==> Before(m.byTimeout, x, y)
    {
      BeforeInsert(m.byTimeout, Pos(m.byTimeout, m1.d, ByTimeout, Key(m1.d, ByTimeout, n)), n, x, y);
      PutOrder(m1, n, r);
      PutOrder(m2, c, NextId(m2.d[c], m.age));
    }
  }

  lemma CreateBehind(m: Mgr, c: Handle, n: Handle, name: int, b: Handle)
    requires Lists(m) && c in m.d && n !in m.d && b in m.d && b != c && m.d[b].timeout.sec <= m.now.sec
    ensures Before(Create(m, c, n, name).byTimeout, b, n)
  {
    var r := NewDesc(m.d[c].id, name, m.age);
    var m1 := Add(m, n, r);
    var m2 := SetupTimeout(m1, n);
    assert Lists(m1) by { AddLists(m, n, r); }
    assert Lists(m2) by { PutLists(m1, n, r); }
    PutBehind(m1, n, r, b);
    PutOrder(m2, c, NextId(m2.d[c], m.age));
  }

  lemma CreateNewborn(m: Mgr, c: Handle, n: Handle, name: int)
    requires Lists(m) && IsDue(m, c) && m.d[c].creator && n !in m.d
    ensures Newborn(m, c, Create(m, c, n, name))
  {
    var q := Create(m, c, n, name);
    assert forall b :: Blocks(m, b) ==> Before(q.byTimeout, b, n) by {
      forall b | Blocks(m, b) ensures Before(q.byTimeout, b, n) { CreateBehind(m, c, n, name, b); }
    }
    CreateRecords(m, c, n, name, q);
  }

  lemma CreateRecords(m: Mgr, c: Handle, n: Handle, name: int, q: Mgr)
    requires c in m.d && n !in m.d && q == Create(m, c, n, name)
    ensures q.now == m.now && q.slot == m.slot && q.d.Keys == m.d.Keys + {n}
    ensures !q.d[n].creator && q.d[n].timeout == q.now
    ensures q.d[c].timeout == Later(m.age * 60, m.now) && forall x :: x in m.d && x != c ==> q.d[x] == m.d[x]
  {
    CreateFacts(m, c, n, name);
  }

  /** The new one's timeout is now, and the creator's is a period later. */
  lemma CreateQuiet(m: Mgr, c: Handle, n: Handle, name: int)
    requires Lists(m) && ClockOk(m.now) && 0 < m.age && IsDue(m, c) && m.d[c].creator && n !in m.d
    ensures Quiet(m, c, Create(m, c, n, name))
  {
    var q := Create(m, c, n, name);
    assert Newborn(m, c, q) by { CreateNewborn(m, c, n, name); }
    CreateOrder(m, c, n, name);
    CreateRecords(m, c, n, name, q);
  }

  lemma ParkQuiet(m: Mgr, g: Handle)
    requires Inv(m) && ClockOk(m.now) && g in m.d && m.d[g].si.trigger.HaltingT? && m.d[g].users > 0
    ensures Quiet(m, g, Halt(m, g))
  {
    assert DescOk(m.d[g], m.age);
    PutQuiet(m, m, g, m.d[g].(si := m.d[g].si.(retry := true, ttl := FOREVER)));
  }

  // ----- the trigger that signals

  /** Giving back the slot makes due all that is to be retried, and puts g itself behind whatever still blocks. */
  lemma HaltKeeps(m: Mgr, g: Handle)
    requires Inv(m) && ValidTime(m.now) && IsDue(m, g) && !Behind(m, g)
    requires m.d[g].si.trigger.HaltingT? && m.d[g].users == 0
    ensures LeavesNothing(Halt(m, g)) <==> LeavesNothing(m)
  {
    var q := Halt(m, g);
    assert m.slot == Some(g) by { assert DescOk(m.d[g], m.age); }
    HaltBlocks(m, g);
    assert Freed(m);
    if b :| Blocks(q, b) {
      assert Behind(q, g) by { HaltBehind(m, g, b); }
    }
  }

  lemma HaltBlocks(m: Mgr, g: Handle)
    requires Inv(m) && ValidTime(m.now) && IsDue(m, g) && m.slot == Some(g) && m.d[g].users == 0
    ensures var q := Halt(m, g);
            q.now == m.now && q.slot == None && IsDue(q, g) &&
            forall x :: Blocks(q, x) <==> Blocks(m, x) && !m.d[x].si.retry
  {
    var q := Halt(m, g);
    HaltWakes(m, g);
    NowIsDue(q, g);
    forall x ensures Blocks(q, x) <==> Blocks(m, x) && !m.d[x].si.retry {
      if x in m.d && x != g && m.d[x].si.retry { NowIsDue(q, x); }
    }
  }

  lemma HaltBehind(m: Mgr, g: Handle, b: Handle)
    requires Inv(m) && g in m.d && m.slot == Some(g) && m.d[g].users == 0
    requires b in m.d && b != g && b in Halt(m, g).d && Halt(m, g).d[b].timeout.sec <= m.now.sec
    ensures Before(Halt(m, g).byTimeout, b, g)
  {
    var m2 := SignalRetry(m.(slot := None));
    SignalWakesAll(m.(slot := None));
    PutBehind(m2, g, m2.d[g].(si := StatusSet(Halting, HALTING_MIN)), b);
  }

  // ----- the loop

  lemma TrigQuiet(m: Mgr, g: Handle, born: Handle, name: int, ok: bool)
    requires Inv(m) && ClockOk(m.now) && IsDue(m, g) && Triggerable(m, g, born)
    requires !(m.d[g].si.trigger.HaltingT? && m.d[g].users == 0)
    ensures Quiet(m, g, Trig(m, g, born, name, ok))
  {
    assert DescOk(m.d[g], m.age);
    match m.d[g].si.trigger
    case ForkT => ForkQuiet(m, g, ok);
    case DumpingT => DumpStartQuiet(m, g);
    case HaltingT => ParkQuiet(m, g);
    case EndT => DelQuiet(m, g);
    case CreateT => CreateQuiet(m, g, born, name);
  }

  /** Firing the head changes nothing about the condition, whichever trigger it is. */
  lemma TrigKeeps(m: Mgr, g: Handle, born: Handle, name: int, ok: bool)
    requires Inv(m) && ClockOk(m.now) && IsDue(m, g) && !Behind(m, g) && Triggerable(m, g, born)
    ensures LeavesNothing(Trig(m, g, born, name, ok)) <==> LeavesNothing(m)
  {
    if m.d[g].si.trigger.HaltingT? && m.d[g].users == 0 {
      HaltKeeps(m, g);
    } else {
      assert Quiet(m, g, Trig(m, g, born, name, ok)) by { TrigQuiet(m, g, born, name, ok); }
      assert m.slot == Some(g) ==> m.d[g].si.trigger.HaltingT? by { assert DescOk(m.d[g], m.age); }
      QuietKeeps(m, g, Trig(m, g, born, name, ok));
    }
  }

  lemma PutTimes(m: Mgr, h: Handle, r: Desc)
    requires TimesOk(m) && ValidTime(m.now)
    ensures TimesOk(Put(m, h, r))
  {
  }

  lemma HaltTimes(m: Mgr, h: Handle)
    requires Lists(m) && TimesOk(m) && ValidTime(m.now) && h in m.d
    ensures TimesOk(Halt(m, h)) && Halt(m, h).now == m.now
  {
    if m.d[h].users > 0 {
      PutTimes(m, h, m.d[h].(si := m.d[h].si.(retry := true, ttl := FOREVER)));
    } else {
      SignalWakesAll(m.(slot := None));
      var m2 := UnaskDump(m, h);
      PutTimes(m2, h, m2.d[h].(si := StatusSet(Halting, HALTING_MIN)));
    }
  }

  lemma CreateTimes(m: Mgr, c: Handle, n: Handle, name: int)
    requires TimesOk(m) && ValidTime(m.now) && c in m.d && n !in m.d
    ensures TimesOk(Create(m, c, n, name)) && Create(m, c, n, name).now == m.now
  {
    CreateFacts(m, c, n, name);
  }

  lemma TrigTimes(m: Mgr, h: Handle, born: Handle, name: int, ok: bool)
    requires Lists(m) && TimesOk(m) && ValidTime(m.now) && Triggerable(m, h, born)
    ensures TimesOk(Trig(m, h, born, name, ok)) && Trig(m, h, born, name, ok).now == m.now
  {
    match m.d[h].si.trigger
    case ForkT =>
    case DumpingT =>
    case HaltingT => HaltTimes(m, h);
    case EndT =>
    case CreateT => CreateTimes(m, h, born, name);
  }

  /** Timeouts are normalised at every step of the main loop and of the other threads. */
  lemma StepTimes(s: State, st: Step)
    requires Inv(s.m) && TimesOk(s.m) && ValidTime(s.m.now) && Enabled(s, st)
    ensures TimesOk(Apply(s, st).m) && ValidTime(Apply(s, st).m.now)
  {
    match st
    case FireStep(h, born, name, ok) => TrigTimes(s.m, h, born, name, ok);
    case SignalStep => SignalWakesAll(s.m);
    case CheckStep => WritableFacts(s.m.byName, s.m.d);
    case _ =>
  }

  lemma HeadIsNotBehind(m: Mgr)
    requires Lists(m) && m.byTimeout != []
    ensures !Behind(m, m.byTimeout[0])
  {
  }

  lemma {:induction false} FiringKeeps(m: Mgr, log: seq<Choice>)
    requires Inv(m) && ClockOk(m.now) && TimesOk(m) && FireAll(m, log).Some?
    ensures var q := FireAll(m, log).value;
            Inv(q) && TimesOk(q) && q.now == m.now && (LeavesNothing(q) <==> LeavesNothing(m))
    decreases |log|
  {
    if log != [] {
      var c, q := log[|log| - 1], FireAll(m, log[..|log| - 1]).value;
      FiringKeeps(m, log[..|log| - 1]);
      HeadIsNotBehind(q);
      TrigInv(q, q.byTimeout[0], c.born, c.name, c.ok);
      TrigTimes(q, q.byTimeout[0], c.born, c.name, c.ok);
      TrigKeeps(q, q.byTimeout[0], c.born, c.name, c.ok);
    }
  }

  lemma AtTheEnd(q: Mgr)
    requires Inv(q) && ClockOk(q.now) && TimesOk(q) && (q.byTimeout != [] ==> !IsDue(q, q.byTimeout[0]))
    ensures NothingDue(q) <==> LeavesNothing(q)
  {
    if h :| h in q.d && IsDue(q, h) {
      EndBehind(q, h);
      if Freed(q) { EndBehind(q, q.slot.value); }
    }
  }

  /** At the end the head blocks, and everything due stands behind it. */
  lemma EndBehind(q: Mgr, h: Handle)
    requires Lists(q) && ClockOk(q.now) && TimesOk(q) && IsDue(q, h) && !IsDue(q, q.byTimeout[0])
    ensures Behind(q, h) && Blocks(q, q.byTimeout[0])
  {
    var first := q.byTimeout[0];
    assert h in q.byTimeout && first in q.byTimeout;
    var j :| 0 <= j < |q.byTimeout| && q.byTimeout[j] == h;
    assert Key(q.d, ByTimeout, q.byTimeout[0]) <= Key(q.d, ByTimeout, q.byTimeout[j]);
    DueIffNotAfter(q.d[h].timeout, q.now);
    assert Before(q.byTimeout, first, h);
  }

  /** The loop leaves nothing due if and only if LeavesNothing holds before it, whatever fork's outcomes and the new
      mem-servers' names. */
  lemma LeavesNothingIff(m: Mgr, log: seq<Choice>, q: Mgr)
    requires Inv(m) && ClockOk(m.now) && FireAll(m, log) == Some(q)
    requires q.byTimeout != [] ==> !IsDue(q, q.byTimeout[0])
    ensures TimesOk(m) ==> (NothingDue(q) <==> LeavesNothing(m))
  {
    if TimesOk(m) {
      FiringKeeps(m, log);
      AtTheEnd(q);
    }
  }
}
