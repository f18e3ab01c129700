/** What every trigger and every mutex-held function keeps: the lists, the shape of each descriptor, and
    DUMPING iff holding the slot. */
module LifecycleInv {
  import opened Ordered
  import opened Times
  import opened Descriptors
  import opened Lifecycle

  /** Rewriting one record keeps everything, if the record is well-formed and agrees with the slot. */
  lemma PutInv(m: Mgr, h: Handle, x: Desc)
    requires Lists(m) && h in m.d && x.name == m.d[h].name && 0 < m.age
    requires DescOk(x, m.age) && (x.si.stat.Dumping? <==> m.slot == Some(h))
    requires forall g :: g in m.d && g != h ==>
               DescOk(m.d[g], m.age) && (m.d[g].si.stat.Dumping? <==> m.slot == Some(g))
    requires m.slot.Some? ==> m.slot.value in m.d
    ensures Inv(Put(m, h, x))
  {
    assert Lists(Put(m, h, x)) by { PutLists(m, h, x); }
    assert Put(m, h, x).d == m.d[h := x.(timeout := Later(x.si.ttl, m.now))];
  }

  lemma ForkInv(m: Mgr, h: Handle, ok: bool)
    requires Inv(m) && h in m.d && m.d[h].si.trigger.ForkT?
    ensures Inv(Fork(m, h, ok))
  {
    var x := m.d[h];
    if ok {
      PutInv(m, h, x.(thread := true, si := x.next.value, next := None));
    } else {
      PutInv(m, h, x.(si := x.si.(retry := true, ttl := FORK_RETRY)));
    }
  }

  lemma {:induction false} FirstCandidateFacts(hs: seq<Handle>, d: map<Handle, Desc>) returns (i: nat)
    ensures FirstCandidate(hs, d).None? ==> forall h :: h in hs ==> !Candidate(d, h)
    ensures FirstCandidate(hs, d).Some? ==>
              i < |hs| && hs[i] == FirstCandidate(hs, d).value && Candidate(d, hs[i])
              && forall j :: 0 <= j < i ==> !Candidate(d, hs[j])
  {
    i := 0;
    if hs != [] && !Candidate(d, hs[0]) {
      var k := FirstCandidateFacts(hs[1..], d);
      i := k + 1;
      assert hs == [hs[0]] + hs[1..];
    }
  }

  /** The slot is granted only when it is free. */
  lemma GrantedFree(m: Mgr, h: Handle)
    requires SlotOk(m) && h in m.d && !m.d[h].si.stat.Dumping? && Granted(m, h)
    ensures m.slot == None && m.d[h].users == 0 && FirstCandidate(m.byName, m.d) == Some(h)
  {
  }

  lemma DumpStartInv(m: Mgr, h: Handle)
    requires Inv(m) && h in m.d && m.d[h].si.trigger.DumpingT?
    ensures Inv(DumpStart(m, h))
  {
    if Granted(m, h) {
      GrantedFree(m, h);
      PutInv(m.(slot := Some(h)), h, Dumped(m, h));
    } else {
      PutInv(m, h, Dumped(m, h));
    }
  }

  lemma WokenOk(x: Desc, age: int, now: Time)
    requires DescOk(x, age)
    ensures DescOk(Woken(x, now), age)
  {
  }

  lemma SignalInv(m: Mgr)
    requires Inv(m)
    ensures Inv(SignalRetry(m))
  {
    SignalWakesAll(m);
    forall h | h in m.d ensures DescOk(Woken(m.d[h], m.now), m.age) {
      WokenOk(m.d[h], m.age, m.now);
    }
  }

  ghost predicate Halted(m: Mgr, h: Handle, q: Mgr) {
    && q == m.(slot := None, byTimeout := q.byTimeout, d := q.d) && q.d.Keys == m.d.Keys && h in q.d
    && q.d[h] == Woken(m.d[h], m.now).(si := StatusSet(Halting, HALTING_MIN), timeout := Later(HALTING_MIN, m.now))
    && forall g :: g in m.d && g != h ==> q.d[g] == Woken(m.d[g], m.now)
  }

  /** The slot is free again, everything parked is awake, and h is about to be removed. */
  lemma HaltWakes(m: Mgr, h: Handle)
    requires Lists(m) && h in m.d && m.slot == Some(h) && m.d[h].users == 0
    ensures Halted(m, h, Halt(m, h))
  {
    var m2 := SignalRetry(m.(slot := None));
    SignalWakesAll(m.(slot := None));
    assert Halt(m, h) == Put(m2, h, m2.d[h].(si := StatusSet(Halting, HALTING_MIN)));
  }

  lemma HaltInv(m: Mgr, h: Handle)
    requires Inv(m) && h in m.d && m.d[h].si.trigger.HaltingT?
    ensures Inv(Halt(m, h))
  {
    if m.d[h].users > 0 {
      PutInv(m, h, m.d[h].(si := m.d[h].si.(retry := true, ttl := FOREVER)));
    } else {
      var m2 := SignalRetry(m.(slot := None));
      SignalWakesAll(m.(slot := None));
      forall g | g in m.d ensures DescOk(m2.d[g], m.age) {
        WokenOk(m.d[g], m.age, m.now);
      }
      PutInv(m2, h, m2.d[h].(si := StatusSet(Halting, HALTING_MIN)));
    }
  }

  lemma EndInv(m: Mgr, h: Handle)
    requires Inv(m) && h in m.d && m.d[h].si.trigger.EndT?
    ensures Inv(Del(m, h))
  {
    DelLists(m, h);
  }

  lemma PeriodIsFinite(age: int)
    ensures age * 60 != FOREVER
  {
    assert FOREVER == 35791394 * 60 + 7;
  }

  lemma AddInv(m: Mgr, h: Handle, x: Desc)
    requires Inv(m) && h !in m.d && DescOk(x, m.age) && !x.si.stat.Dumping?
    ensures Inv(Add(m, h, x))
  {
    AddLists(m, h, x);
  }

  lemma SetupTimeoutInv(m: Mgr, h: Handle)
    requires Inv(m) && h in m.d
    ensures Inv(SetupTimeout(m, h))
  {
    PutInv(m, h, m.d[h]);
  }

  lemma CreateInv(m: Mgr, c: Handle, h: Handle, name: int)
    requires Inv(m) && c in m.d && h !in m.d && m.d[c].si.trigger.CreateT?
    ensures Inv(Create(m, c, h, name))
  {
    var m1 := Add(m, h, NewDesc(m.d[c].id, name, m.age));
    PeriodIsFinite(m.age);
    AddInv(m, h, NewDesc(m.d[c].id, name, m.age));
    SetupTimeoutInv(m1, h);
    assert SetupTimeout(m1, h).d[c] == m.d[c] && c != h;
    PutInv(SetupTimeout(m1, h), c, NextId(m.d[c], m.age));
  }

  lemma CreateFacts(m: Mgr, c: Handle, h: Handle, name: int)
    requires c in m.d && h !in m.d
    ensures Created(m, c, h, name, Create(m, c, h, name))
  {
  }

  ghost predicate Created(m: Mgr, c: Handle, h: Handle, name: int, q: Mgr)
    requires c in m.d
  {
    var x := NewDesc(m.d[c].id, name, m.age);
    && q == m.(byName := Insert(m.byName, m.d[h := x], ByName, h), byTimeout := q.byTimeout, d := q.d, n := m.n + 1)
    && q.d == m.d[h := x.(timeout := Later(0, m.now))]
                 [c := NextId(m.d[c], m.age).(timeout := Later(m.age * 60, m.now))]
  }

  lemma SetLists(m: Mgr, h: Handle, x: Desc)
    requires Lists(m) && h in m.d && x.name == m.d[h].name && x.timeout == m.d[h].timeout
    ensures Lists(Set(m, h, x))
  {
    KeepListing(m.byName, m.d, m.d[h := x], ByName);
    KeepListing(m.byTimeout, m.d, m.d[h := x], ByTimeout);
  }

  lemma SetInv(m: Mgr, h: Handle, x: Desc)
    requires Inv(m) && h in m.d && x.name == m.d[h].name && x.timeout == m.d[h].timeout
    requires DescOk(x, m.age) && x.si.stat == m.d[h].si.stat
    ensures Inv(Set(m, h, x))
  {
    SetLists(m, h, x);
  }

  lemma UsersInv(m: Mgr, h: Handle, k: int)
    requires Inv(m) && h in m.d && 0 <= m.d[h].users + k && !m.d[h].creator
    requires m.d[h].si.stat.Normal? || m.d[h].si.stat.Dumping?
    ensures Inv(AddUsers(m, h, k))
  {
    var x := m.d[h].(users := m.d[h].users + k);
    assert DescOk(x, m.age) by { assert DescOk(m.d[h], m.age); }
    SetInv(m, h, x);
    assert AddUsers(m, h, k) == Set(m, h, x);
  }

  predicate TakesWrites(d: map<Handle, Desc>, h: Handle) {
    h in d && !d[h].creator && d[h].si.w
  }

  lemma {:induction false} WritableFacts(hs: seq<Handle>, d: map<Handle, Desc>)
    ensures var o := Writable(hs, d);
            o.Some? ==> o.value in hs && o.value in d && !d[o.value].creator && d[o.value].si.w
  {
    if hs != [] {
      WritableFacts(hs[..|hs| - 1], d);
    }
  }

  /** h takes writes, and nobody behind it in the list does. */
  ghost predicate LastWriter(hs: seq<Handle>, d: map<Handle, Desc>, h: Handle) {
    TakesWrites(d, h) && exists i :: 0 <= i < |hs| && hs[i] == h && forall j :: i < j < |hs| ==> !TakesWrites(d, hs[j])
  }

  /** The search from the last name backwards finds the last that takes writes, or that nobody does. */
  lemma {:induction false} WritableIsLast(hs: seq<Handle>, d: map<Handle, Desc>)
    ensures match Writable(hs, d)
            case Some(h) => LastWriter(hs, d, h)
            case None => forall h :: h in hs ==> !TakesWrites(d, h)
  {
    if hs != [] {
      var n := |hs| - 1;
      WritableIsLast(hs[..n], d);
      assert hs == hs[..n] + [hs[n]];
      if !TakesWrites(d, hs[n]) && Writable(hs[..n], d).Some? {
        var h := Writable(hs[..n], d).value;
        var i :| 0 <= i < n && hs[..n][i] == h && forall j :: i < j < n ==> !TakesWrites(d, hs[..n][j]);
        assert hs[i] == h && forall j :: i < j < n ==> hs[j] == hs[..n][j];
      }
    }
  }

  /** The other way round: whoever is the last that takes writes is found. */
  lemma {:induction false} LastIsWritable(hs: seq<Handle>, d: map<Handle, Desc>, i: nat)
    requires i < |hs| && TakesWrites(d, hs[i]) && forall j :: i < j < |hs| ==> !TakesWrites(d, hs[j])
    ensures Writable(hs, d) == Some(hs[i])
  {
    if i < |hs| - 1 {
      LastIsWritable(hs[..|hs| - 1], d, i);
    }
  }

  lemma TooHeavyInv(m: Mgr)
    requires Inv(m)
    ensures Inv(TooHeavy(m))
  {
    WritableFacts(m.byName, m.d);
    if Writable(m.byName, m.d).Some? {
      var h := Writable(m.byName, m.d).value;
      SetInv(m, h, m.d[h].(si := m.d[h].si.(ttl := 0)));
    }
  }

  /** Zeroing a time to live makes nothing due: the order of timeouts and every timeout stay as they were, so
      the writable mem-server goes on taking writes until its own timeout comes. */
  lemma TooHeavyMakesNothingDue(m: Mgr)
    ensures var q := TooHeavy(m);
            && q.byTimeout == m.byTimeout && q.d.Keys == m.d.Keys && q.now == m.now
            && forall h :: h in m.d ==> q.d[h].timeout == m.d[h].timeout && q.d[h].si.w == m.d[h].si.w
  {
  }

  /** Neither a time to live nor a retry of anyone else is touched, and no timeout at all. */
  lemma TooHeavyExactly(m: Mgr)
    requires Lists(m)
    ensures var q := TooHeavy(m);
            && q == m.(d := q.d) && q.d.Keys == m.d.Keys
            && forall h :: h in m.d ==>
                 q.d[h] == if LastWriter(m.byName, m.d, h) then m.d[h].(si := m.d[h].si.(ttl := 0)) else m.d[h]
  {
    WritableIsLast(m.byName, m.d);
    forall h: Handle | LastWriter(m.byName, m.d, h) ensures Writable(m.byName, m.d) == Some(h) {
      var i :| 0 <= i < |m.byName| && m.byName[i] == h && forall j :: i < j < |m.byName| ==> !TakesWrites(m.d, m.byName[j]);
      LastIsWritable(m.byName, m.d, i);
    }
  }

  /** c is a creator, and nobody before it in the list is. */
  ghost predicate EarliestCreator(hs: seq<Handle>, d: map<Handle, Desc>, c: Handle) {
    c in d && d[c].creator &&
    exists i :: 0 <= i < |hs| && hs[i] == c && forall j :: 0 <= j < i && hs[j] in d ==> !d[hs[j]].creator
  }

  lemma {:induction false} FirstCreatorIsFirst(hs: seq<Handle>, d: map<Handle, Desc>)
    ensures FirstCreator(hs, d).Some? ==> EarliestCreator(hs, d, FirstCreator(hs, d).value)
  {
    if hs != [] {
      if hs[0] in d && d[hs[0]].creator {
        assert hs[0] == FirstCreator(hs, d).value;
      } else if FirstCreator(hs[1..], d).Some? {
        FirstCreatorIsFirst(hs[1..], d);
        var i :| 0 <= i < |hs[1..]| && hs[1..][i] == FirstCreator(hs, d).value
                 && forall j :: 0 <= j < i && hs[1..][j] in d ==> !d[hs[1..][j]].creator;
        assert hs[i + 1] == FirstCreator(hs, d).value && forall j :: 0 < j < i + 1 ==> hs[j] == hs[1..][j - 1];
      }
    }
  }

  lemma {:induction false} FirstCreatorFacts(hs: seq<Handle>, d: map<Handle, Desc>)
    ensures var o := FirstCreator(hs, d);
            && (o.Some? ==> o.value in hs && o.value in d && d[o.value].creator)
            && (o.None? ==> forall h :: h in hs && h in d ==> !d[h].creator)
  {
    if hs != [] {
      FirstCreatorFacts(hs[1..], d);
      assert hs == [hs[0]] + hs[1..];
    }
  }

  lemma DeleteCreatorInv(m: Mgr)
    requires Inv(m)
    ensures Inv(DeleteCreator(m))
  {
    FirstCreatorFacts(m.byName, m.d);
    if FirstCreator(m.byName, m.d).Some? {
      DelLists(m, FirstCreator(m.byName, m.d).value);
    }
  }

  lemma NewCreatorInv(m: Mgr, c: Handle, id: int, name: int)
    requires Inv(m) && c !in m.d
    ensures Inv(NewCreator(m, c, id, name))
  {
    var x := CreatorDesc(id, name);
    AddInv(m, c, x);
    SetupTimeoutInv(Add(m, c, x), c);
  }

  // ----- the slot is granted in name order, to a quiet descriptor

  lemma {:induction false} FirstHasLeastName(m: Mgr, h: Handle)
    requires Lists(m) && FirstCandidate(m.byName, m.d) == Some(h)
    ensures forall g :: Candidate(m.d, g) ==> h in m.d && m.d[h].name <= m.d[g].name
  {
    var i := FirstCandidateFacts(m.byName, m.d);
    forall g | Candidate(m.d, g) ensures m.d[h].name <= m.d[g].name {
      assert g in m.byName;
      var j :| 0 <= j < |m.byName| && m.byName[j] == g;
      assert Key(m.d, ByName, m.byName[i]) <= Key(m.d, ByName, m.byName[j]);
    }
  }

  /** When the slot is granted, no NORMAL or CLEANUP descriptor has a smaller name, nobody was dumping, and the
      descriptor has no user but the exporter and takes no more writes. */
  lemma GrantedInOrder(m: Mgr, h: Handle)
    requires Inv(m) && h in m.d && m.d[h].si.trigger.DumpingT? && Granted(m, h)
    ensures m.slot == None && m.d[h].users == 0
    ensures forall g :: Candidate(m.d, g) ==> m.d[h].name <= m.d[g].name
    ensures var q := DumpStart(m, h);
            && q.slot == Some(h) && q.d[h].si.stat.Dumping? && !q.d[h].si.w && q.d[h].users == 1
            && forall g :: g in q.d && q.d[g].si.stat.Dumping? ==> g == h
  {
    GrantedFree(m, h);
    FirstHasLeastName(m, h);
  }

  /** askDump's assertion that there is a candidate cannot fail, since the asker is one. */
  lemma AskerIsCandidate(m: Mgr, h: Handle)
    requires Inv(m) && h in m.d && m.d[h].si.trigger.DumpingT?
    ensures Candidate(m.d, h) && FirstCandidate(m.byName, m.d).Some?
  {
    var i := FirstCandidateFacts(m.byName, m.d);
    assert h in m.byName;
  }
}
