/** The mem-server manager as it is in memory: its descriptors, its two rings, the dump slot and the clock.  Each
    method is a function of the source and is proved to do what its counterpart in Lifecycle does to a value. */
module MemManager {
  import opened Ordered
  import opened Times
  import opened Descriptors
  import opened Lifecycle
  import opened LifecycleInv
  import opened MainLoop
  import opened Firing
  import opened Effects
  import opened Ring

  class MemServerManager {
    var d: map<Handle, Desc>
    const names: Ring
    const timeouts: Ring
    var nMemServer: int
    var slot: Option<Handle>  // p_dumping
    var now: Time
    const age: int
    const max: int
    var unused: Handle        // the address the next calloc returns

    ghost function View(): Mgr
      reads this, names, timeouts
    {
      Mgr(names.list, timeouts.list, d, nMemServer, slot, now, age, max)
    }

    ghost predicate Valid()
      reads this, names, timeouts
    {
      && names != timeouts && names.Valid() && timeouts.Valid()
      && (forall h :: h in d ==> h < unused)
    }

    constructor (now: Time, age: int, max: int)
      ensures Valid() && View() == Mgr([], [], map[], 0, None, now, age, max)
    {
      names := new Ring();
      timeouts := new Ring();
      d, nMemServer, slot, unused := map[], 0, None, 0;
      this.now, this.age, this.max := now, age, max;
    }

    /** setupTimeout_memServer_nolock, after the record of h has been rewritten to x. */
    method Put(h: Handle, x: Desc)
      requires Valid() && h in d && h in timeouts.list
      modifies this`d, timeouts
      ensures Valid() && View() == Lifecycle.Put(old(View()), h, x)
      ensures 0 <= x.si.ttl && now.sec <= 2147483647 ==> PutAs(old(View()), h, x, View())
    {
      if 0 <= x.si.ttl && now.sec <= 2147483647 { PutExactly(View(), h, x); }
      d := d[h := x];
      d := d[h := d[h].(timeout := Later(d[h].si.ttl, now))];
      assert d == old(d)[h := x.(timeout := Later(x.si.ttl, now))];
      timeouts.Resort(h, d, ByTimeout);
    }

    method AddMemServer(h: Handle, x: Desc)
      requires Valid() && h !in d && h < unused && h !in names.list && h !in timeouts.list
      modifies this`d, this`nMemServer, names, timeouts
      ensures Valid() && View() == Lifecycle.Add(old(View()), h, x)
    {
      nMemServer := nMemServer + 1;
      d := d[h := x];
      timeouts.Add(h, d, ByTimeout);
      names.Add(h, d, ByName);
    }

    method DelMemServer(h: Handle)
      requires Valid() && h in names.list && h in timeouts.list
      modifies this`d, this`nMemServer, names, timeouts
      ensures Valid() && View() == Lifecycle.Del(old(View()), h)
    {
      nMemServer := nMemServer - 1;
      timeouts.Unlink(h);
      names.Unlink(h);
      d := d - {h};
    }

    /** getNextDumpingMemServer_nolock */
    method GetNextDumping() returns (r: Option<Handle>)
      requires Valid() && forall h :: h in names.list ==> h in d
      ensures r == FirstCandidate(names.list, d)
      ensures match r
              case Some(h) => Candidate(d, h) && NoneBefore(names.list, d, h)
              case None => forall h :: h in names.list ==> !Candidate(d, h)
    {
      ghost var first := FirstCandidateFacts(names.list, d);
      var p := names.next[HEAD];
      ghost var i := 0;
      while p != HEAD
        invariant i <= |names.list| && p == NodeAt(names.list, i)
        invariant FirstCandidate(names.list[i..], d) == FirstCandidate(names.list, d)
        decreases |names.list| - i
      {
        assert p in names.list;
        if d[p].si.stat.Cleanup? || d[p].si.stat.Normal? {
          return Some(p);
        }
        assert i < |names.list| - 1 ==> names.next[names.list[i]] == names.list[i + 1];
        p := names.next[p];
        i := i + 1;
      }
      return None;
    }

    method AskDump(h: Handle) returns (rv: bool)
      requires Valid() && forall g :: g in names.list ==> g in d
      modifies this`slot
      ensures rv == Lifecycle.AskDump(old(View()), h)
      ensures slot == if rv then Some(h) else old(slot)
      ensures rv ==> old(slot) == Some(h) || (old(slot) == None && Candidate(d, h) && NoneBefore(names.list, d, h))
      ensures old(slot) == Some(h) ==> rv
    {
      if slot.None? {
        var p := GetNextDumping();
        if p == Some(h) {
          slot := Some(h);
          rv := true;
        } else {
          rv := false;
        }
      } else {
        rv := slot == Some(h);
      }
    }

    method WakeNode(p: Handle)
      requires Valid() && Lists(View()) && p in d
      modifies this`d, timeouts
      ensures Valid() && View() == WakeOne(old(View()), p) && Lists(View())
    {
      WakeOneFacts(View(), p);
      if d[p].si.retry {
        Put(p, d[p].(si := d[p].si.(retry := false, ttl := 0)));
      }
    }

    method SignalRetry()
      requires Valid() && Lists(View())
      modifies this`d, timeouts
      ensures Valid() && View() == Lifecycle.SignalRetry(old(View())) && Lists(View())
    {
      ghost var m0, hs := View(), names.list;
      var p := names.next[HEAD];
      ghost var i := 0;
      assert hs[0..] == hs;
      while p != HEAD
        invariant i <= |hs| && p == NodeAt(hs, i) && Valid() && Lists(View()) && names.list == hs
        invariant WakeAll(View(), hs[i..]) == WakeAll(m0, hs)
        decreases |hs| - i
        modifies this`d, timeouts
      {
        assert p in hs && hs[i..][0] == p && hs[i..][1..] == hs[i + 1..];
        WakeNode(p);
        assert i < |hs| - 1 ==> names.next[hs[i]] == hs[i + 1];
        p := names.next[p];
        i := i + 1;
      }
    }

    method UnaskDump(h: Handle)
      requires Valid() && Lists(View())
      modifies this`d, this`slot, timeouts
      ensures Valid() && View() == Lifecycle.UnaskDump(old(View()), h) && Lists(View())
    {
      if slot == Some(h) {
        slot := None;
        SignalRetry();
      }
    }

    // ----- triggers

    method Fork(h: Handle, ok: bool)
      requires Valid() && Lists(View()) && h in d && d[h].next.Some?
      modifies this`d, timeouts
      ensures Valid() && View() == Lifecycle.Fork(old(View()), h, ok)
      ensures Usual(old(View())) && old(d)[h].si.trigger.ForkT? ==> ForkedAs(old(View()), h, ok, View())
    {
      ForkUsually(View(), h, ok);
      var x := d[h];
      if ok {
        x := x.(thread := true, si := x.next.value, next := None);
      } else {
        x := x.(si := x.si.(retry := true, ttl := FORK_RETRY));
      }
      Put(h, x);
    }

    method Dumping(h: Handle)
      requires Valid() && Lists(View()) && h in d
      modifies this`d, this`slot, timeouts
      ensures Valid() && View() == Lifecycle.DumpStart(old(View()), h)
      ensures Usual(old(View())) && old(d)[h].si.trigger.DumpingT? ==> DumpStartedAs(old(View()), h, View())
    {
      DumpStartUsually(View(), h);
      var x := d[h];
      var granted := x.users == 0;
      if granted {
        granted := AskDump(h);
      }
      if !granted {
        x := x.(si := x.si.(w := false, r := true, retry := true, ttl := FOREVER));
      } else {
        x := x.(si := StatusSet(Stat.Dumping, DUMPING_MIN));
        x := x.(users := x.users + 1);
      }
      if !x.thread {
        x := x.(si := x.si.(w := false, r := false));
      }
      Put(h, x);
    }

    method Halting(h: Handle)
      requires Valid() && Lists(View()) && h in d
      modifies this`d, this`slot, timeouts
      ensures Valid() && View() == Lifecycle.Halt(old(View()), h)
      ensures Usual(old(View())) && old(d)[h].si.trigger.HaltingT? ==> HaltedAs(old(View()), h, View())
    {
      HaltUsually(View(), h);
      if d[h].users > 0 {
        Put(h, d[h].(si := d[h].si.(retry := true, ttl := FOREVER)));
      } else {
        SignalWakesAll(View().(slot := None));
        UnaskDump(h);
        Put(h, d[h].(si := StatusSet(Stat.Halting, HALTING_MIN)));
      }
    }

    method CreateMemServer(c: Handle, name: int) returns (h: Handle)
      requires Valid() && Lists(View()) && c in d
      modifies this`d, this`nMemServer, this`unused, names, timeouts
      ensures Valid() && h == old(unused) && View() == Lifecycle.Create(old(View()), c, h, name)
      ensures Usual(old(View())) && old(d)[c].creator ==> CreatedExactly(old(View()), c, h, name, View())
    {
      CreateUsually(View(), c, unused, name);
      h := unused;
      unused := unused + 1;
      var x := NewDesc(d[c].id, name, age);
      AddLists(View(), h, x);
      AddMemServer(h, x);
      PutLists(View(), h, d[h]);
      Put(h, d[h]);
      Put(c, NextId(d[c], age));
    }

    /** trigger, with the outcomes of fork and of naming left open. */
    method Trigger(h: Handle) returns (ghost name: int, ghost ok: bool)
      requires Valid() && Inv(View()) && h in d
      modifies this`d, this`slot, this`nMemServer, this`unused, names, timeouts
      ensures Valid() && Triggerable(old(View()), h, old(unused))
      ensures View() == Trig(old(View()), h, old(unused), name, ok)
    {
      name, ok := 0, false;
      match d[h].si.trigger
      case ForkT =>
        var outcome: bool := *;
        ok := outcome;
        Fork(h, outcome);
      case DumpingT => Dumping(h);
      case HaltingT => Halting(h);
      case EndT => DelMemServer(h);
      case CreateT =>
        var rank: int := *;
        name := rank;
        var born := CreateMemServer(h, rank);
    }

    // ----- the main loop

    /** The search that getWritableMemServer and isTooHeavy share: from the last name backwards. */
    method FindWritable() returns (r: Option<Handle>)
      requires Valid() && forall h :: h in names.list ==> h in d
      ensures r == Writable(names.list, d)
      ensures match r
              case Some(h) => LastWriter(names.list, d, h)
              case None => forall h :: h in names.list ==> !TakesWrites(d, h)
    {
      WritableIsLast(names.list, d);
      var p := names.prev[HEAD];
      ghost var hs := names.list;
      ghost var i: nat := |hs|;
      assert hs[..i] == hs;
      while p != HEAD
        invariant i <= |hs| && p == NodeAt(hs, i - 1)
        invariant Writable(hs[..i], d) == Writable(hs, d)
        decreases i
      {
        assert p in hs && hs[..i][i - 1] == p && hs[..i][..i - 1] == hs[..i - 1];
        if !d[p].creator && d[p].si.w {
          return Some(p);
        }
        assert 0 < i - 1 ==> names.prev[hs[i - 1]] == hs[i - 2];
        p := names.prev[p];
        i := i - 1;
      }
      return None;
    }

    method GetWritable() returns (r: Option<Handle>)
      requires Valid() && Lists(View())
      modifies this`d
      ensures Valid() && r == Writable(names.list, old(d)) && (r.Some? ==> r.value in old(d))
      ensures View() == if r.Some? then AddUsers(old(View()), r.value, 1) else old(View())
      ensures GotWritable(old(View()), r, View())
    {
      GetWritableExactly(View());
      r := FindWritable();
      if r.Some? {
        WritableFacts(names.list, d);
        d := d[r.value := d[r.value].(users := d[r.value].users + 1)];
      }
    }

    method IsTooHeavy() returns (heavy: bool)
      requires Valid() && Lists(View())
      modifies this`d
      ensures Valid() && heavy == TooFull(old(View()))
      ensures View() == if heavy then TooHeavy(old(View())) else old(View())
      ensures heavy <==> nMemServer >= max
      ensures d.Keys == old(d).Keys && forall h :: h in d ==>
                d[h] == if heavy && LastWriter(names.list, old(d), h) then old(d)[h].(si := old(d)[h].si.(ttl := 0)) else old(d)[h]
    {
      TooHeavyExactly(View());
      if nMemServer < max {
        return false;
      }
      var r := FindWritable();
      if r.Some? {
        WritableFacts(names.list, d);
        d := d[r.value := d[r.value].(si := d[r.value].si.(ttl := 0))];
      }
      return true;
    }

    /** The search of delete_memServerCreator, from the first name on. */
    method FindCreator() returns (r: Option<Handle>)
      requires Valid() && forall h :: h in names.list ==> h in d
      ensures r == FirstCreator(names.list, d)
      ensures r.Some? ==> EarliestCreator(names.list, d, r.value)
    {
      FirstCreatorIsFirst(names.list, d);
      var p := names.next[HEAD];
      ghost var hs := names.list;
      ghost var i := 0;
      assert hs[0..] == hs;
      while p != HEAD
        invariant i <= |hs| && p == NodeAt(hs, i)
        invariant FirstCreator(hs[i..], d) == FirstCreator(hs, d)
        decreases |hs| - i
      {
        assert p in hs && hs[i..][0] == p && hs[i..][1..] == hs[i + 1..];
        if d[p].creator {
          return Some(p);
        }
        assert i < |hs| - 1 ==> names.next[hs[i]] == hs[i + 1];
        p := names.next[p];
        i := i + 1;
      }
      return None;
    }

    /** delete_memServerCreator: the first creator in name order, if there is one. */
    method DeleteMemServerCreator()
      requires Valid() && Lists(View())
      modifies this`d, this`nMemServer, names, timeouts
      ensures Valid() && View() == DeleteCreator(old(View()))
      ensures CreatorDeleted(old(View()), View())
    {
      DeleteCreatorExactly(View());
      var r := FindCreator();
      if r.Some? {
        FirstCreatorFacts(names.list, d);
        DelMemServer(r.value);
      }
    }

    /** new_memServerCreator, with the id and the name that the clock gives it. */
    method NewMemServerCreator(id: int, name: int) returns (c: Handle)
      requires Valid() && Lists(View())
      modifies this`d, this`nMemServer, this`unused, names, timeouts
      ensures Valid() && c == old(unused) && c !in old(d) && View() == NewCreator(old(View()), c, id, name)
      ensures CreatorAdded(old(View()), c, id, name, View())
    {
      NewCreatorExactly(View(), unused, id, name);
      c := unused;
      unused := unused + 1;
      AddLists(View(), c, CreatorDesc(id, name));
      AddMemServer(c, CreatorDesc(id, name));
      Put(c, d[c]);
    }

    method FireOne(h: Handle) returns (ghost c: Choice)
      requires Valid() && Inv(View()) && ClockOk(now) && IsDue(View(), h)
      modifies this`d, this`slot, this`nMemServer, this`unused, names, timeouts
      ensures Valid() && Inv(View()) && Less(View(), old(View()))
      ensures Triggerable(old(View()), h, c.born) && View() == Trig(old(View()), h, c.born, c.name, c.ok)
    {
      ghost var m, born := View(), unused;
      ghost var name, ok := Trigger(h);
      TrigInv(m, h, born, name, ok);
      TrigLess(m, h, born, name, ok);
      c := Choice(born, name, ok);
    }

    /** The loop that fires due triggers, with no other thread in between.  It ends for any descriptors and any
        outcomes of fork.  The ring is in order of seconds only, so a descriptor that is due can stand behind one that
        is not; LeavesNothing says exactly when none does in the end. */
    method FireDue() returns (ghost log: seq<Choice>)
      requires Valid() && Inv(View()) && ClockOk(now)
      modifies this`d, this`slot, this`nMemServer, this`unused, names, timeouts
      ensures Valid() && Inv(View()) && FireAll(old(View()), log) == Some(View())
      ensures timeouts.list != [] ==> !IsDue(View(), timeouts.list[0])
      ensures forall h :: h in d ==> now.sec <= d[h].timeout.sec
      ensures TimesOk(old(View())) ==> (NothingDue(View()) <==> LeavesNothing(old(View())))
    {
      log := [];
      while timeouts.next[HEAD] != HEAD
        invariant Valid() && Inv(View()) && FireAll(old(View()), log) == Some(View())
        decreases Total(names.list, CreatorsDue(View())), Total(names.list, Stages(View())),
                  Total(names.list, Dues(View()))
      {
        var h := timeouts.next[HEAD];
        assert h == timeouts.list[0] && h in timeouts.list;
        if Delta(d[h].timeout, now) != Time(0, 0) {
          break;
        }
        ghost var m := View();
        ghost var c := FireOne(h);
        FireMore(old(View()), log, m, c);
        log := log + [c];
      }
      HeadIsEarliest(View());
      LeavesNothingIff(old(View()), log, View());
    }
  }
}
