/** No lost wake-up.  A descriptor that cannot go on is parked: its time to live is WAITFOREVER and it waits to be
    signalled.  At every step of MainLoop there is a reason for it to be parked that will end in a signal, and
    some event is always outstanding. */
module WakeUp {
  import opened Ordered
  import opened Times
  import opened Descriptors
  import opened Lifecycle
  import opened LifecycleInv
  import opened MainLoop

  predicate Parked(x: Desc) { x.si.ttl == FOREVER }

  /** Somebody uses it and will give it back; or it waits for the slot, which somebody has or which somebody with
      a smaller name is to have first. */
  ghost predicate Justified(m: Mgr, h: Handle)
    requires h in m.d
  {
    m.d[h].users > 0 ||
    (Candidate(m.d, h) && (m.slot.Some? || FirstCandidate(m.byName, m.d) != Some(h)))
  }

  ghost predicate WakeOk(m: Mgr, pending: nat) {
    forall h :: h in m.d && Parked(m.d[h]) ==> pending > 0 || Justified(m, h)
  }

  // ----- who is first in line

  lemma {:induction false} FirstSame(hs: seq<Handle>, d: map<Handle, Desc>, d': map<Handle, Desc>)
    requires forall h :: h in hs ==> (Candidate(d, h) <==> Candidate(d', h))
    ensures FirstCandidate(hs, d') == FirstCandidate(hs, d)
  {
    if hs != [] {
      FirstSame(hs[1..], d, d');
    }
  }

  lemma {:induction false} FirstInsert(hs: seq<Handle>, i: nat, h: Handle, d: map<Handle, Desc>)
    requires i <= |hs| && !Candidate(d, h)
    ensures FirstCandidate(InsertAt(hs, i, h), d) == FirstCandidate(hs, d)
  {
    if i == 0 {
      assert InsertAt(hs, 0, h)[1..] == hs;
    } else {
      assert InsertAt(hs, i, h)[1..] == InsertAt(hs[1..], i - 1, h);
      FirstInsert(hs[1..], i - 1, h, d);
    }
  }

  lemma {:induction false} FirstRemove(hs: seq<Handle>, h: Handle, d: map<Handle, Desc>)
    requires !Candidate(d, h)
    ensures FirstCandidate(Remove(hs, h), d) == FirstCandidate(hs, d)
  {
    if hs != [] && hs[0] != h {
      assert Remove(hs, h)[1..] == Remove(hs[1..], h);
      FirstRemove(hs[1..], h, d);
    }
  }

  lemma {:induction false} FirstMore(hs: seq<Handle>, d: map<Handle, Desc>, d': map<Handle, Desc>, h: Handle)
    requires forall g :: g in hs && g != h ==> (Candidate(d, g) <==> Candidate(d', g))
    requires Candidate(d', h)
    ensures FirstCandidate(hs, d') == FirstCandidate(hs, d) || FirstCandidate(hs, d') == Some(h)
  {
    if hs != [] {
      FirstMore(hs[1..], d, d', h);
    }
  }

  // ----- each step keeps WakeOk

  /** A step that changes no state but h's, and leaves h itself awake or justified. */
  lemma WakeKept(m: Mgr, q: Mgr, h: Handle, pending: nat)
    requires WakeOk(m, pending) && q.slot == m.slot
    requires FirstCandidate(q.byName, q.d) == FirstCandidate(m.byName, m.d)
    requires forall g :: g in q.d && g != h && Parked(q.d[g]) ==>
               g in m.d && Parked(m.d[g]) && q.d[g].users >= m.d[g].users && q.d[g].si.stat == m.d[g].si.stat
    requires h in q.d && Parked(q.d[h]) ==> pending > 0 || Justified(q, h)
    ensures WakeOk(q, pending)
  {
  }

  lemma SetWake(m: Mgr, h: Handle, x: Desc, q: Mgr, pending: nat)
    requires WakeOk(m, pending) && h in m.d && x.si.stat == m.d[h].si.stat
    requires q.slot == m.slot && q.byName == m.byName && q.d == m.d[h := x]
    requires Parked(x) ==> pending > 0 || Justified(q, h)
    ensures WakeOk(q, pending)
  {
    FirstSame(m.byName, m.d, q.d);
    WakeKept(m, q, h, pending);
  }

  lemma ForkWake(m: Mgr, h: Handle, ok: bool, pending: nat)
    requires Inv(m) && WakeOk(m, pending) && h in m.d && m.d[h].si.trigger.ForkT?
    ensures WakeOk(Fork(m, h, ok), pending)
  {
    var q := Fork(m, h, ok);
    if ok {
      PeriodIsFinite(m.age);
      FirstMore(m.byName, m.d, q.d, h);
    } else {
      SetWake(m, h, q.d[h], q, pending);
    }
  }

  lemma DumpStartWake(m: Mgr, h: Handle, pending: nat)
    requires Inv(m) && WakeOk(m, pending) && h in m.d && m.d[h].si.trigger.DumpingT?
    ensures WakeOk(DumpStart(m, h), pending)
  {
    var q := DumpStart(m, h);
    if Granted(m, h) {
      GrantedFree(m, h);
    } else {
      FirstSame(m.byName, m.d, q.d);
      SetWake(m, h, q.d[h], q, pending);
    }
  }

  lemma HaltWake(m: Mgr, h: Handle, pending: nat)
    requires Inv(m) && WakeOk(m, pending) && h in m.d && m.d[h].si.trigger.HaltingT?
    ensures WakeOk(Halt(m, h), pending)
  {
    var q := Halt(m, h);
    if m.d[h].users == 0 {
      HaltWakes(m, h);
      assert forall g :: g in m.d ==> DescOk(m.d[g], m.age);
    } else {
      SetWake(m, h, q.d[h], q, pending);
    }
  }

  lemma DelWake(m: Mgr, h: Handle, pending: nat)
    requires WakeOk(m, pending) && !Candidate(m.d, h)
    ensures WakeOk(Del(m, h), pending)
  {
    var q := Del(m, h);
    FirstRemove(m.byName, h, m.d);
    assert FirstCandidate(q.byName, q.d) == FirstCandidate(q.byName, m.d) by { FirstSame(q.byName, m.d, q.d); }
    WakeKept(m, q, h, pending);
  }

  lemma AddWake(m: Mgr, h: Handle, x: Desc, q: Mgr, pending: nat)
    requires WakeOk(m, pending) && h !in m.d && x.si.stat.Unforked? && !Parked(x)
    requires q.slot == m.slot && q.byName == Insert(m.byName, m.d[h := x], ByName, h) && q.d == m.d[h := x]
    ensures WakeOk(q, pending)
  {
    FirstInsert(m.byName, Pos(m.byName, q.d, ByName, Key(q.d, ByName, h)), h, q.d);
    FirstSame(m.byName, m.d, q.d);
    WakeKept(m, q, h, pending);
  }

  lemma CreateWake(m: Mgr, c: Handle, h: Handle, name: int, pending: nat)
    requires Inv(m) && WakeOk(m, pending) && c in m.d && h !in m.d && m.d[c].si.trigger.CreateT?
    ensures WakeOk(Create(m, c, h, name), pending)
  {
    var q, x := Create(m, c, h, name), NewDesc(m.d[c].id, name, m.age);
    var m1 := Add(m, h, x);
    assert WakeOk(m1, pending) by {
      PeriodIsFinite(m.age);
      AddWake(m, h, x, m1, pending);
    }
    CreateFacts(m, c, h, name);
    PeriodIsFinite(m.age);
    RetimedWake(m1, q, c, h, pending);
  }

  /** h has a new timeout, and so has the creator. */
  lemma RetimedWake(m: Mgr, q: Mgr, c: Handle, h: Handle, pending: nat)
    requires WakeOk(m, pending) && c in m.d && h in m.d && c != h && c in q.d && h in q.d
    requires q.slot == m.slot && q.byName == m.byName && q.d[c].si.stat == m.d[c].si.stat && !Parked(q.d[c])
    requires q.d == m.d[h := m.d[h].(timeout := q.d[h].timeout)][c := q.d[c]]
    ensures WakeOk(q, pending)
  {
    FirstSame(m.byName, m.d, q.d);
    WakeKept(m, q, c, pending);
  }

  lemma SignalWake(m: Mgr)
    requires Inv(m)
    ensures WakeOk(SignalRetry(m), 0)
  {
    SignalWakesAll(m);
    forall h | h in m.d ensures !Parked(Woken(m.d[h], m.now)) {
      assert DescOk(m.d[h], m.age);
    }
  }

  lemma TooHeavyWake(m: Mgr, pending: nat)
    requires Inv(m) && WakeOk(m, pending)
    ensures WakeOk(TooHeavy(m), pending)
  {
    WritableFacts(m.byName, m.d);
    if Writable(m.byName, m.d).Some? {
      var h := Writable(m.byName, m.d).value;
      SetWake(m, h, TooHeavy(m).d[h], TooHeavy(m), pending);
    }
  }

  lemma DeleteCreatorWake(m: Mgr, pending: nat)
    requires Inv(m) && WakeOk(m, pending)
    ensures WakeOk(DeleteCreator(m), pending)
  {
    FirstCreatorFacts(m.byName, m.d);
    if FirstCreator(m.byName, m.d).Some? {
      DelWake(m, FirstCreator(m.byName, m.d).value, pending);
    }
  }

  lemma NewCreatorWake(m: Mgr, c: Handle, id: int, name: int, pending: nat)
    requires Inv(m) && WakeOk(m, pending) && c !in m.d
    ensures WakeOk(NewCreator(m, c, id, name), pending)
  {
    var x := CreatorDesc(id, name);
    var m1, q := Add(m, c, x), NewCreator(m, c, id, name);
    AddWake(m, c, x, m1, pending);
    FirstSame(m1.byName, m1.d, q.d);
    WakeKept(m1, q, c, pending);
  }

  lemma UsersWake(m: Mgr, h: Handle, k: int, pending: nat)
    requires WakeOk(m, pending) && h in m.d && (0 <= k || pending > 0)
    ensures WakeOk(AddUsers(m, h, k), pending)
  {
    var q := AddUsers(m, h, k);
    if 0 <= k {
      FirstSame(m.byName, m.d, q.d);
      WakeKept(m, q, h, pending);
    }
  }

  lemma TrigWake(m: Mgr, h: Handle, born: Handle, name: int, ok: bool, pending: nat)
    requires Inv(m) && WakeOk(m, pending) && Triggerable(m, h, born)
    ensures WakeOk(Trig(m, h, born, name, ok), pending)
  {
    match m.d[h].si.trigger
    case ForkT => ForkWake(m, h, ok, pending);
    case DumpingT => DumpStartWake(m, h, pending);
    case HaltingT => HaltWake(m, h, pending);
    case EndT => DelWake(m, h, pending);
    case CreateT => CreateWake(m, h, born, name, pending);
  }

  lemma StepWake(s: State, st: Step)
    requires Inv(s.m) && WakeOk(s.m, s.pending) && Enabled(s, st)
    ensures WakeOk(Apply(s, st).m, Apply(s, st).pending)
  {
    match st
    case CheckStep => if TooFull(s.m) { TooHeavyWake(s.m, s.pending); }
    case DeleteStep => DeleteCreatorWake(s.m, s.pending);
    case FireStep(h, born, name, ok) => TrigWake(s.m, h, born, name, ok, s.pending);
    case CallStep(c, id, name) => if s.cleaning && s.m.n <= 0 { NewCreatorWake(s.m, c, id, name, s.pending); }
    case TickStep(now) => WakeTick(s.m, now, s.pending);
    case AcquireStep => UsersWake(s.m, Writable(s.m.byName, s.m.d).value, 1, s.pending);
    case ReleaseStep(h) => WakeMore(s.m, s.pending); UsersWake(s.m, h, -1, s.pending + 1);
    case SignalStep => SignalWake(s.m);
    case StopStep =>
  }

  lemma WakeTick(m: Mgr, now: Time, pending: nat)
    requires WakeOk(m, pending)
    ensures WakeOk(m.(now := now), pending)
  {
  }

  lemma WakeMore(m: Mgr, pending: nat)
    requires WakeOk(m, pending)
    ensures WakeOk(m, pending + 1)
  {
  }

  /** As long as there is a descriptor, one has a timeout that comes by itself, or a user is to give one back, or a
      signal is on its way: the parked descriptors never wait for each other only. */
  lemma SomethingIsOutstanding(m: Mgr, pending: nat)
    requires Inv(m) && WakeOk(m, pending) && m.d.Keys != {}
    ensures pending > 0 || exists h :: h in m.d && (!Parked(m.d[h]) || m.d[h].users > 0)
  {
    var h :| h in m.d;
    assert h in m.byName;
    var i := FirstCandidateFacts(m.byName, m.d);
    if m.slot.Some? {
      assert m.d[m.slot.value].si.stat.Dumping? && !Candidate(m.d, m.slot.value);
      assert Parked(m.d[m.slot.value]) ==> pending > 0 || Justified(m, m.slot.value);
    } else {
      var f := if FirstCandidate(m.byName, m.d).Some? then FirstCandidate(m.byName, m.d).value else h;
      assert f in m.d && (Parked(m.d[f]) ==> pending > 0 || Justified(m, f));
    }
  }
}
