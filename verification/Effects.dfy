/** What each trigger does to the record it is about and to nobody else's, with states, flags and times written out: the
    promises of the descriptors' comments, and of their constants. */
module Effects {
  import opened Ordered
  import opened Times
  import opened Descriptors
  import opened Lifecycle
  import opened LifecycleInv
  import opened MainLoop

  /** No record but h's is touched, nor the clock, nor the bounds. */
  ghost predicate OnlyRecord(m: Mgr, q: Mgr, h: Handle) {
    && q.d.Keys == m.d.Keys && q.byName == m.byName && q.n == m.n
    && q.now == m.now && q.age == m.age && q.max == m.max
    && forall g :: g in m.d && g != h ==> q.d[g] == m.d[g]
  }

  /** That many seconds from now, to the microsecond; at the end of time if there are not so many left. */
  function In(m: Mgr, nsec: int): Time { Time(Earlier(m.now.sec + nsec, 2147483647), m.now.usec) }

  ghost predicate PutAs(m: Mgr, h: Handle, x: Desc, q: Mgr)
    requires h in m.d
  {
    OnlyRecord(m, q, h) && q.slot == m.slot && q.d[h] == x.(timeout := In(m, x.si.ttl))
  }

  lemma PutExactly(m: Mgr, h: Handle, x: Desc)
    requires h in m.d && 0 <= x.si.ttl && m.now.sec <= 2147483647
    ensures PutAs(m, h, x, Put(m, h, x))
  {
    LaterExactly(x.si.ttl, m.now);
  }

  /** Forked: it takes packages until its period is over.  Not forked: it is tried again after half a minute. */
  ghost predicate ForkedAs(m: Mgr, h: Handle, ok: bool, q: Mgr)
    requires h in m.d
  {
    var x := m.d[h];
    && OnlyRecord(m, q, h) && q.slot == m.slot
    && q.d[h] == if ok
       then x.(thread := true, si := Instruct(Normal, true, true, false, m.age * 60, DumpingT), next := None,
               timeout := In(m, m.age * 60))
       else x.(si := Instruct(Unforked, false, false, true, 30, ForkT), timeout := In(m, 30))
  }

  lemma ForkExactly(m: Mgr, h: Handle, ok: bool)
    requires Inv(m) && h in m.d && m.d[h].si.trigger.ForkT? && m.now.sec <= 2147483647
    ensures ForkedAs(m, h, ok, Fork(m, h, ok))
  {
    assert DescOk(m.d[h], m.age);
    PutExactly(m, h, if ok then m.d[h].(thread := true, si := m.d[h].next.value, next := None)
                     else m.d[h].(si := m.d[h].si.(retry := true, ttl := FORK_RETRY)));
  }

  /** Who is granted the slot: nobody uses it, and it has the slot, or the slot is free and it is the first in the list of
      those that are to be dumped. */
  lemma GrantedIff(m: Mgr, h: Handle)
    requires Inv(m) && h in m.d
    ensures Granted(m, h) <==>
            m.d[h].users == 0 &&
            (m.slot == Some(h) || (m.slot == None && Candidate(m.d, h) && NoneBefore(m.byName, m.d, h)))
  {
    var i := FirstCandidateFacts(m.byName, m.d);
    if m.slot == None && Candidate(m.d, h) && NoneBefore(m.byName, m.d, h) {
      assert h in m.byName;
      var k :| 0 <= k < |m.byName| && m.byName[k] == h &&
        forall j :: 0 <= j < k && m.byName[j] in m.d ==>
          !m.d[m.byName[j]].si.stat.Normal? && !m.d[m.byName[j]].si.stat.Cleanup?;
    }
  }

  ghost predicate NoneBefore(hs: seq<Handle>, d: map<Handle, Desc>, h: Handle) {
    exists k :: 0 <= k < |hs| && hs[k] == h &&
      forall j :: 0 <= j < k && hs[j] in d ==> !d[hs[j]].si.stat.Normal? && !d[hs[j]].si.stat.Cleanup?
  }

  /** Granted: DUMPING, in use by its exporter, and looked at again after three seconds.  Refused: parked, to be retried, for
      ever if nobody signals; the state stays. */
  ghost predicate DumpStartedAs(m: Mgr, h: Handle, q: Mgr)
    requires h in m.d
  {
    var x, granted := m.d[h], m.d[h].users == 0 && m.slot == None && NoneBefore(m.byName, m.d, h);
    && OnlyRecord(m, q, h) && q.slot == (if granted then Some(h) else m.slot)
    && q.d[h] == if granted
       then x.(si := Instruct(Dumping, false, x.thread, false, 3, HaltingT), users := 1, timeout := In(m, 3))
       else x.(si := Instruct(x.si.stat, false, x.thread, true, 2147483647, DumpingT), timeout := In(m, 2147483647))
  }

  lemma DumpStartExactly(m: Mgr, h: Handle)
    requires Inv(m) && h in m.d && m.d[h].si.trigger.DumpingT? && m.now.sec <= 2147483647
    ensures DumpStartedAs(m, h, DumpStart(m, h))
    ensures Granted(m, h) <==> m.d[h].users == 0 && m.slot == None && NoneBefore(m.byName, m.d, h)
  {
    assert DescOk(m.d[h], m.age);
    GrantedIff(m, h);
    PutExactly(if Granted(m, h) then m.(slot := Some(h)) else m, h, Dumped(m, h));
  }

  /** In use: parked, to be retried.  Not in use: it gives the slot back, everything to be retried is due now, and it is
      due for its end now. */
  ghost predicate HaltedAs(m: Mgr, h: Handle, q: Mgr)
    requires h in m.d
  {
    var x := m.d[h];
    if x.users > 0 then
      && OnlyRecord(m, q, h) && q.slot == m.slot
      && q.d[h] == x.(si := x.si.(retry := true, ttl := 2147483647), timeout := In(m, 2147483647))
    else
      && q.slot == None && q.d.Keys == m.d.Keys && q.byName == m.byName && q.now == m.now
      && q.d[h].si == Instruct(Halting, false, false, false, 0, EndT) && q.d[h].timeout == m.now
      && q.d[h].users == 0
      && forall g :: g in m.d && g != h ==> q.d[g] == Signalled(m, g)
  }

  lemma HaltExactly(m: Mgr, h: Handle)
    requires Inv(m) && h in m.d && m.d[h].si.trigger.HaltingT? && m.now.sec <= 2147483647
    ensures HaltedAs(m, h, Halt(m, h))
  {
    assert DescOk(m.d[h], m.age);
    if m.d[h].users > 0 {
      PutExactly(m, h, m.d[h].(si := m.d[h].si.(retry := true, ttl := FOREVER)));
    } else {
      HaltWakes(m, h);
    }
  }

  /** What a signal makes of g. */
  function Signalled(m: Mgr, g: Handle): Desc
    requires g in m.d
  {
    if m.d[g].si.retry then m.d[g].(si := m.d[g].si.(retry := false, ttl := 0), timeout := m.now) else m.d[g]
  }

  lemma SignalExactly(m: Mgr)
    requires Lists(m)
    ensures var q := SignalRetry(m);
            && q.d.Keys == m.d.Keys && q.byName == m.byName && q.slot == m.slot && q.now == m.now
            && forall g :: g in m.d ==> q.d[g] == Signalled(m, g)
  {
    SignalWakesAll(m);
  }

  /** Only the holder gives the slot back. */
  lemma UnaskExactly(m: Mgr, h: Handle)
    requires Lists(m)
    ensures m.slot != Some(h) ==> UnaskDump(m, h) == m
    ensures m.slot == Some(h) ==> UnaskDump(m, h) == SignalRetry(m.(slot := None)) && UnaskDump(m, h).slot == None
  {
    SignalWakesAll(m.(slot := None));
  }

  /** The new mem-server has the creator's id, is due at once and knows what it is to be; the creator's id is one period
      on, and it is due when the period is over. */
  lemma CreateExactly(m: Mgr, c: Handle, h: Handle, name: int)
    requires Inv(m) && c in m.d && m.d[c].creator && h !in m.d && m.now.sec <= 2147483647
    ensures CreatedExactly(m, c, h, name, Create(m, c, h, name))
  {
    assert DescOk(m.d[c], m.age);
    CreatedWrittenOut(m, c, h, name);
  }

  ghost predicate CreatedExactly(m: Mgr, c: Handle, h: Handle, name: int, q: Mgr)
    requires c in m.d
  {
    var period := m.age * 60;
    && q.d.Keys == m.d.Keys + {h} && q.n == m.n + 1 && q.slot == m.slot
    && q.now == m.now && q.age == m.age && q.max == m.max
    && q.d[h] == Desc(name, m.d[c].id, 0, false, false, Instruct(Unforked, false, false, false, 0, ForkT),
                      Some(Instruct(Normal, true, true, false, period, DumpingT)), m.now)
    && q.d[c] == m.d[c].(id := m.d[c].id + period, si := Instruct(Unforked, false, false, false, period, CreateT),
                         timeout := In(m, period))
    && forall g :: g in m.d && g != c ==> q.d[g] == m.d[g]
  }

  lemma CreatedWrittenOut(m: Mgr, c: Handle, h: Handle, name: int)
    requires c in m.d && h !in m.d && m.now.sec <= 2147483647 && 0 < m.age
    requires m.d[c].si == Instruct(Unforked, false, false, false, m.d[c].si.ttl, CreateT)
    ensures CreatedExactly(m, c, h, name, Create(m, c, h, name))
  {
    CreateFacts(m, c, h, name);
    LaterExactly(m.age * 60, m.now);
  }

  /** A creator is due at once. */
  ghost predicate CreatorAdded(m: Mgr, c: Handle, id: int, name: int, q: Mgr) {
    && q.d == m.d[c := Desc(name, id, 0, false, true, Instruct(Unforked, false, false, false, 0, CreateT), None, m.now)]
    && q.n == m.n + 1 && q.slot == m.slot && q.now == m.now && q.age == m.age && q.max == m.max
  }

  lemma NewCreatorExactly(m: Mgr, c: Handle, id: int, name: int)
    requires c !in m.d
    ensures CreatorAdded(m, c, id, name, NewCreator(m, c, id, name))
  {
  }

  /** The last in the list that takes packages has one user more; or nobody takes any. */
  ghost predicate GotWritable(m: Mgr, r: Option<Handle>, q: Mgr) {
    match r
    case Some(h) =>
      LastWriter(m.byName, m.d, h) && h in m.d && q == m.(d := m.d[h := m.d[h].(users := m.d[h].users + 1)])
    case None => q == m && forall h :: h in m.d ==> !TakesWrites(m.d, h)
  }

  lemma GetWritableExactly(m: Mgr)
    requires Lists(m)
    ensures var r := Writable(m.byName, m.d);
            r.Some? ==> r.value in m.d && GotWritable(m, r, AddUsers(m, r.value, 1))
    ensures Writable(m.byName, m.d).None? ==> GotWritable(m, None, m)
  {
    WritableIsLast(m.byName, m.d);
    assert forall h :: h in m.byName <==> h in m.d;
  }

  /** The first creator in the list is gone, and nobody else; or there was none. */
  ghost predicate CreatorDeleted(m: Mgr, q: Mgr) {
    (q == m && forall h :: h in m.d ==> !m.d[h].creator) ||
    (exists c :: EarliestCreator(m.byName, m.d, c) && q.d == m.d - {c} && q.n == m.n - 1)
  }

  lemma DeleteCreatorExactly(m: Mgr)
    requires Lists(m)
    ensures CreatorDeleted(m, DeleteCreator(m))
  {
    FirstCreatorIsFirst(m.byName, m.d);
    FirstCreatorFacts(m.byName, m.d);
    assert forall h :: h in m.byName <==> h in m.d;
  }

  // ----- for a manager in its invariant, and a clock that is not past the end of time

  ghost predicate Usual(m: Mgr) { Inv(m) && m.now.sec <= 2147483647 }

  lemma ForkUsually(m: Mgr, h: Handle, ok: bool)
    requires h in m.d && m.d[h].next.Some?
    ensures Usual(m) && m.d[h].si.trigger.ForkT? ==> ForkedAs(m, h, ok, Fork(m, h, ok))
  {
    if Usual(m) && m.d[h].si.trigger.ForkT? { ForkExactly(m, h, ok); }
  }

  lemma DumpStartUsually(m: Mgr, h: Handle)
    requires h in m.d
    ensures Usual(m) && m.d[h].si.trigger.DumpingT? ==> DumpStartedAs(m, h, DumpStart(m, h))
  {
    if Usual(m) && m.d[h].si.trigger.DumpingT? { DumpStartExactly(m, h); }
  }

  lemma HaltUsually(m: Mgr, h: Handle)
    requires h in m.d
    ensures Usual(m) && m.d[h].si.trigger.HaltingT? ==> HaltedAs(m, h, Halt(m, h))
  {
    if Usual(m) && m.d[h].si.trigger.HaltingT? { HaltExactly(m, h); }
  }

  lemma CreateUsually(m: Mgr, c: Handle, h: Handle, name: int)
    requires c in m.d && h !in m.d
    ensures Usual(m) && m.d[c].creator ==> CreatedExactly(m, c, h, name, Create(m, c, h, name))
  {
    if Usual(m) && m.d[c].creator { CreateExactly(m, c, h, name); }
  }

  // ----- together

  lemma ParkedThenDue(q: Mgr, h: Handle)
    requires Lists(q) && ClockOk(q.now) && h in q.d && q.d[h].si.retry && q.d[h].timeout == In(q, 2147483647)
    ensures !IsDue(q, h)
    ensures var r := SignalRetry(q);
            h in r.d && IsDue(r, h) && r.d[h].timeout == q.now && !r.d[h].si.retry
  {
    SignalExactly(q);
    DueIffNotAfter(In(q, 2147483647), q.now);
    DueIffNotAfter(q.now, q.now);
  }

  /** A mem-server whose dump was refused takes no packages, is not due by itself, and is due as soon as somebody
      signals. */
  lemma RefusedThenSignalled(m: Mgr, h: Handle)
    requires Inv(m) && ClockOk(m.now) && h in m.d && m.d[h].si.trigger.DumpingT? && !Granted(m, h)
    ensures var q := DumpStart(m, h);
            && h in q.d && !IsDue(q, h) && !q.d[h].si.w
            && var r := SignalRetry(q); h in r.d && IsDue(r, h) && r.d[h].timeout == m.now && !r.d[h].si.retry
  {
    DumpStartExactly(m, h);
    assert Lists(DumpStart(m, h)) by { DumpStartInv(m, h); }
    ParkedThenDue(DumpStart(m, h), h);
  }

  /** So is one that is to halt while it is in use. */
  lemma InUseThenSignalled(m: Mgr, h: Handle)
    requires Inv(m) && ClockOk(m.now) && h in m.d && m.d[h].si.trigger.HaltingT? && m.d[h].users > 0
    ensures var q := Halt(m, h);
            && h in q.d && !IsDue(q, h)
            && var r := SignalRetry(q); h in r.d && IsDue(r, h) && r.d[h].timeout == m.now && !r.d[h].si.retry
  {
    HaltExactly(m, h);
    assert Lists(Halt(m, h)) by { HaltInv(m, h); }
    ParkedThenDue(Halt(m, h), h);
  }
}
