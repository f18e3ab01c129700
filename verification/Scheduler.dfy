/** The unit allocator and the schedule of the information server (the select version).  A unit is known by its
    position among all units; procs[i][ii] is unit i * UNITS + ii. */
module Scheduler {
  import opened Ordered

  const UNITS := 100

  function Below(n: nat): (all: set<nat>)
    ensures |all| == n
    ensures forall x: nat :: x in all <==> x < n
  {
    if n == 0 then {} else Below(n - 1) + {n - 1}
  }

  /** Distinct units below n, none of them u, are fewer than n. */
  lemma Pigeonhole(s: seq<nat>, n: nat, u: nat)
    requires NoDup(s) && u < n && u !in s && forall j :: 0 <= j < |s| ==> s[j] < n
    ensures |s| < n
  {
    FitsIn(s, Below(n) - {u});
  }

  lemma {:induction false} FitsIn(s: seq<nat>, within: set<nat>)
    requires NoDup(s) && forall j :: 0 <= j < |s| ==> s[j] in within
    ensures |s| <= |within|
  {
    if s != [] {
      var n := |s| - 1;
      FitsIn(s[..n], within - {s[n]});
    }
  }

  /** Removing what is at one position of a list without duplicates. */
  lemma DropIsRemove(s: seq<nat>, k: nat)
    requires NoDup(s) && k < |s|
    ensures Remove(s, s[k]) == s[..k] + s[k + 1..]
  {
    var i := RemoveIsDrop(s, s[k]);
  }

  lemma {:induction false} RemoveAbsent(s: seq<nat>, u: nat)
    requires u !in s
    ensures Remove(s, u) == s
  {
    if s != [] {
      RemoveAbsent(s[1..], u);
    }
  }

  /** The schedule and the units' indices are inverse to each other; places are counted from 1. */
  ghost predicate Inverse(list: seq<nat>, idx: seq<int>) {
    && (forall j :: 0 <= j < |list| ==> list[j] < |idx| && idx[list[j]] == j + 1)
    && (forall u :: 0 <= u < |idx| ==> -1 <= idx[u] <= |list|)
    && (forall u, j :: 0 <= u < |idx| && 0 <= j < |list| && idx[u] == j + 1 ==> list[j] == u)
  }

  /** No unit is scheduled twice, and the scheduled ones are exactly those with a positive index. */
  lemma InverseOnce(list: seq<nat>, idx: seq<int>)
    requires Inverse(list, idx)
    ensures NoDup(list)
    ensures forall u: nat :: u in list <==> u < |idx| && idx[u] > 0
  {
    forall u: nat | u < |idx| && idx[u] > 0 ensures u in list {
      assert list[idx[u] - 1] == u;
    }
  }

  lemma InverseAdd(list: seq<nat>, idx: seq<int>, u: nat)
    requires Inverse(list, idx) && u < |idx| && idx[u] <= 0
    ensures Inverse(list + [u], idx[u := |list| + 1])
  {
  }

  /** The index of a unit after the k-th place is vacated. */
  function MovedUp(x: int, k: nat): int {
    if x == k then 0 else if x > k then x - 1 else x
  }

  lemma OwnPlace(list: seq<nat>, idx: seq<int>, u: nat)
    requires Inverse(list, idx) && u < |idx| && idx[u] > 0
    ensures list[idx[u] - 1] == u
    ensures forall v :: 0 <= v < |idx| && v != u ==> idx[v] != idx[u]
  {
    assert list[idx[u] - 1] == u;
  }

  /** The list without its k-th element, and the indices moved up, are inverse again. */
  lemma InverseShift(list: seq<nat>, idx: seq<int>, k: nat, list': seq<nat>, idx': seq<int>)
    requires Inverse(list, idx) && k < |list| == |list'| + 1 && |idx| == |idx'|
    requires forall j :: 0 <= j < k ==> list'[j] == list[j]
    requires forall j :: k <= j < |list'| ==> list'[j] == list[j + 1]
    requires forall v :: 0 <= v < |idx| ==> idx'[v] == MovedUp(idx[v], k + 1)
    ensures Inverse(list', idx')
  {
    forall u, j | 0 <= u < |idx'| && 0 <= j < |list'| && idx'[u] == j + 1 ensures list'[j] == u {
      assert list[if j < k then j else j + 1] == u;
    }
  }

  lemma InverseRemove(list: seq<nat>, idx: seq<int>, u: nat, idx': seq<int>)
    requires Inverse(list, idx) && u < |idx| == |idx'| && idx[u] > 0
    requires forall v :: 0 <= v < |idx| ==> idx'[v] == MovedUp(idx[v], idx[u])
    ensures Inverse(list[..idx[u] - 1] + list[idx[u]..], idx')
    ensures list[..idx[u] - 1] + list[idx[u]..] == Remove(list, u)
  {
    var k := idx[u] - 1;
    InverseShift(list, idx, k, list[..k] + list[k + 1..], idx');
    assert list[..k] + list[k + 1..] == Remove(list, u) by {
      InverseOnce(list, idx);
      OwnPlace(list, idx, u);
      DropIsRemove(list, k);
    }
  }

  /** Every index, when those behind u's have been moved up and u's is 0. */
  lemma AllMoved(list: seq<nat>, idx: seq<int>, moved: seq<int>, u: nat)
    requires Inverse(list, idx) && u < |idx| == |moved| && idx[u] > 0
    requires forall v :: 0 <= v < |idx| ==> moved[v] == if idx[v] > idx[u] then idx[v] - 1 else idx[v]
    ensures forall v :: 0 <= v < |idx| ==> moved[u := 0][v] == MovedUp(idx[v], idx[u])
  {
    OwnPlace(list, idx, u);
  }

  lemma InverseMore(list: seq<nat>, idx: seq<int>, free: seq<int>)
    requires Inverse(list, idx) && forall v :: 0 <= v < |free| ==> free[v] == 0
    ensures Inverse(list, idx + free)
  {
  }

  /** An allocated unit has been touched once, a scheduled one more often. */
  ghost predicate Counted(idx: seq<int>, touchCnt: seq<nat>) {
    |touchCnt| == |idx| && forall u :: 0 <= u < |idx| && idx[u] != 0 ==>
      touchCnt[u] >= 1 && (touchCnt[u] == 1 <==> idx[u] == -1)
  }

  lemma CountedMore(idx: seq<int>, touchCnt: seq<nat>, free: seq<int>, zeros: seq<nat>)
    requires Counted(idx, touchCnt) && |free| == |zeros| && forall v :: 0 <= v < |free| ==> free[v] == 0
    ensures Counted(idx + free, touchCnt + zeros)
  {
  }

  lemma Allocated(list: seq<nat>, idx: seq<int>, touchCnt: seq<nat>, u: nat)
    requires Inverse(list, idx) && Counted(idx, touchCnt) && u < |idx| && idx[u] == 0
    ensures Inverse(list, idx[u := -1]) && Counted(idx[u := -1], touchCnt[u := 1])
  {
  }

  /** What a unit's move to the end of the schedule does to the indices: the others keep theirs, or move up by one if
      they were behind it. */
  ghost predicate Rescheduled(idx: seq<int>, idx': seq<int>, u: nat) {
    && |idx'| == |idx| && u < |idx| && idx'[u] > 0
    && forall v :: 0 <= v < |idx| && v != u ==>
         idx'[v] == if 0 < idx[u] < idx[v] then idx[v] - 1 else idx[v]
  }

  lemma CountedOnce(idx: seq<int>, idx': seq<int>, touchCnt: seq<nat>, u: nat)
    requires Counted(idx, touchCnt) && Rescheduled(idx, idx', u) && idx[u] != 0
    ensures Counted(idx', touchCnt[u := touchCnt[u] + 1])
  {
  }

  class Scheduler {
    /** ProcUNIT.i: 0 free, -1 allocated, else the place in schelist.  ProcUNIT.touchCnt. */
    var idx: seq<int>
    var touchCnt: seq<nat>
    var szprocs: nat
    var schelist: seq<nat>
    var nschelist: nat
    var szschelist: nat

    ghost predicate Sizes()
      reads this
    {
      && |idx| == |touchCnt| == UNITS * szprocs
      && szschelist == |schelist| == 1 + |idx| && 1 <= nschelist <= szschelist
    }

    ghost predicate Valid()
      reads this
    {
      Sizes() && Inverse(Schedule(), idx) && Counted(idx, touchCnt)
    }

    ghost function Schedule(): seq<nat>
      reads this
    {
      if 1 <= nschelist <= |schelist| then schelist[1..nschelist] else []
    }

    constructor ()
      ensures Valid() && Schedule() == [] && szprocs == 1
      ensures forall u :: 0 <= u < |idx| ==> idx[u] == 0
    {
      idx, touchCnt, szprocs := seq(UNITS, u => 0), seq(UNITS, u => 0), 1;
      schelist := seq(1 + UNITS, k => 0);
      nschelist, szschelist := 1, 1 + UNITS;
    }

    /** Another block of units, and room in the schedule for all of them. */
    method AllocUnits()
      requires Valid()
      modifies this
      ensures Valid() && szprocs == old(szprocs) + 1 && Schedule() == old(Schedule())
      ensures idx == old(idx) + seq(UNITS, u => 0) && touchCnt == old(touchCnt) + seq(UNITS, u => 0)
    {
      InverseMore(Schedule(), idx, seq(UNITS, u => 0));
      CountedMore(idx, touchCnt, seq(UNITS, u => 0), seq(UNITS, u => 0));
      szprocs := szprocs + 1;
      idx, touchCnt := idx + seq(UNITS, u => 0), touchCnt + seq(UNITS, u => 0);
      szschelist := szschelist + UNITS;
      schelist := schelist + seq(UNITS, k => 0);
      assert schelist[1..nschelist] == old(schelist[1..nschelist]);
    }

    /** The first free unit, or the first of a new block. */
    method NewProcUnit() returns (u: nat)
      requires Valid()
      modifies this
      ensures Valid() && Schedule() == old(Schedule())
      ensures u < |idx| && idx[u] == -1 && touchCnt[u] == 1
      ensures u < old(|idx|) ==> old(idx)[u] == 0 && idx == old(idx)[u := -1]
      ensures u >= old(|idx|) ==> u == old(|idx|) && idx == (old(idx) + seq(100, v => 0))[u := -1]
      ensures forall v :: 0 <= v < old(|idx|) && v < u ==> old(idx)[v] != 0
    {
      u := FirstFree();
      if u == |idx| {
        AllocUnits();
      }
      Take(u);
    }

    method Take(u: nat)
      requires Valid() && u < |idx| && idx[u] == 0
      modifies this`idx, this`touchCnt
      ensures Valid() && Schedule() == old(Schedule())
      ensures idx == old(idx)[u := -1] && touchCnt == old(touchCnt)[u := 1]
    {
      Allocated(Schedule(), idx, touchCnt, u);
      idx, touchCnt := idx[u := -1], touchCnt[u := 1];
    }

    method FirstFree() returns (u: nat)
      ensures u <= |idx| && (u < |idx| ==> idx[u] == 0) && forall v :: 0 <= v < u ==> idx[v] != 0
    {
      u := 0;
      while u < |idx| && idx[u] != 0
        invariant u <= |idx| && forall v :: 0 <= v < u ==> idx[v] != 0
      {
        u := u + 1;
      }
    }

    /** Appends to the schedule.  There is room: the units that are scheduled are distinct and u is none of them. */
    method AddSchEntry(u: nat)
      requires Sizes() && Inverse(Schedule(), idx) && u < |idx| && idx[u] <= 0
      modifies this`idx, this`nschelist, this`schelist
      ensures Sizes() && Inverse(Schedule(), idx) && Schedule() == old(Schedule()) + [u]
      ensures idx == old(idx)[u := old(nschelist)]
    {
      InverseOnce(Schedule(), idx);
      Pigeonhole(Schedule(), |idx|, u);
      InverseAdd(Schedule(), idx, u);
      var i := nschelist;
      schelist := schelist[i := u];
      nschelist := nschelist + 1;
      idx := idx[u := i];
      assert Schedule() == old(Schedule()) + [u];
    }

    /** Takes u out; those behind it move up by one, and so do their indices. */
    method RemoveSchEntry(u: nat)
      requires Sizes() && Inverse(Schedule(), idx) && u < |idx| && idx[u] > 0
      modifies this`idx, this`nschelist, this`schelist
      ensures Sizes() && Inverse(Schedule(), idx) && Schedule() == Remove(old(Schedule()), u)
      ensures |idx| == old(|idx|) && forall v :: 0 <= v < |idx| ==> idx[v] == MovedUp(old(idx)[v], old(idx)[u])
    {
      var i := idx[u];
      ghost var was, s := idx, Schedule();
      ShiftFrom(i);
      AllMoved(s, was, idx, u);
      nschelist := nschelist - 1;
      idx := idx[u := 0];
      assert Schedule() == s[..i - 1] + s[i..];
      InverseRemove(s, was, u, idx);
    }

    /** In the loop: places i to j - 2 have been moved up, and so have the indices of the units that were in them. */
    static ghost predicate Shifting(s: seq<nat>, was: seq<int>, list: seq<nat>, idx: seq<int>, i: nat, j: nat) {
      && 1 <= i < j <= |s| + 1 <= |list| && |idx| == |was|
      && (forall k :: 1 <= k < i ==> list[k] == s[k - 1])
      && (forall k :: i <= k < j - 1 ==> list[k] == s[k])
      && (forall k :: j - 1 <= k < |s| + 1 ==> list[k] == s[k - 1])
      && forall v :: 0 <= v < |was| ==> idx[v] == if i < was[v] < j then was[v] - 1 else was[v]
    }

    static lemma ShiftOne(s: seq<nat>, was: seq<int>, list: seq<nat>, idx: seq<int>, i: nat, j: nat)
      requires Inverse(s, was) && Shifting(s, was, list, idx, i, j) && j <= |s|
      ensures list[j] < |idx|
      ensures Shifting(s, was, list[j - 1 := list[j]], idx[list[j] := j - 1], i, j + 1)
    {
    }

    /** The loop that moves up what is behind place i. */
    method ShiftFrom(i: nat)
      requires Sizes() && Inverse(Schedule(), idx) && 1 <= i < nschelist
      modifies this`idx, this`schelist
      ensures |idx| == old(|idx|) && |schelist| == old(|schelist|)
      ensures schelist[1..nschelist - 1] == old(Schedule())[..i - 1] + old(Schedule())[i..]
      ensures forall v :: 0 <= v < |idx| ==> idx[v] == if old(idx)[v] > i then old(idx)[v] - 1 else old(idx)[v]
    {
      ghost var was, s := idx, Schedule();
      var j := i + 1;
      while j < nschelist
        modifies this`idx, this`schelist
        invariant j <= nschelist && |schelist| == old(|schelist|) && Shifting(s, was, schelist, idx, i, j)
      {
        ShiftOne(s, was, schelist, idx, i, j);
        schelist := schelist[j - 1 := schelist[j]];
        idx := idx[schelist[j - 1] := j - 1];
        j := j + 1;
      }
      Joined(schelist[1..nschelist - 1], s, i);
    }

    static lemma Joined(t: seq<nat>, s: seq<nat>, i: nat)
      requires 1 <= i <= |s| == |t| + 1
      requires forall k :: 0 <= k < i - 1 ==> t[k] == s[k]
      requires forall k :: i - 1 <= k < |t| ==> t[k] == s[k + 1]
      ensures t == s[..i - 1] + s[i..]
    {
    }

    /** Schedules a unit, or moves it to the end. */
    method ModProcUnit(u: nat)
      requires Valid() && u < |idx| && idx[u] != 0
      modifies this`idx, this`touchCnt, this`nschelist, this`schelist
      ensures Valid() && Schedule() == Remove(old(Schedule()), u) + [u] && Rescheduled(old(idx), idx, u)
      ensures touchCnt == old(touchCnt)[u := old(touchCnt[u]) + 1]
    {
      Reschedule(u);
      CountedOnce(old(idx), idx, touchCnt, u);
      touchCnt := touchCnt[u := touchCnt[u] + 1];
    }

    method Reschedule(u: nat)
      requires Valid() && u < |idx| && idx[u] != 0
      modifies this`idx, this`nschelist, this`schelist
      ensures Sizes() && Inverse(Schedule(), idx) && Schedule() == Remove(old(Schedule()), u) + [u]
      ensures Rescheduled(old(idx), idx, u)
    {
      if touchCnt[u] == 1 {
        InverseOnce(Schedule(), idx);
        RemoveAbsent(Schedule(), u);
        AddSchEntry(u);
      } else {
        OwnPlace(Schedule(), idx, u);
        RemoveSchEntry(u);
        AddSchEntry(u);
      }
    }

    /** The unit is free again; or the source's assertion that it is scheduled fails, which is so exactly for a unit that
        is free already or was allocated and never scheduled, and nothing is changed. */
    method DelProcUnit(u: nat) returns (asserted: bool)
      requires Valid() && u < |idx|
      modifies this`idx, this`nschelist, this`schelist
      ensures Valid() && |idx| == old(|idx|)
      ensures !asserted <==> old(idx)[u] == 0 || old(idx)[u] == -1
      ensures !asserted ==> idx == old(idx) && Schedule() == old(Schedule())
      ensures asserted ==> Schedule() == Remove(old(Schedule()), u)
      ensures asserted ==> forall v :: 0 <= v < |idx| ==>
                idx[v] == MovedUp(old(idx)[v], old(idx)[u]) && (idx[v] == 0 <==> v == u || old(idx)[v] == 0)
    {
      asserted := idx[u] > 0;
      if asserted {
        OwnPlace(Schedule(), idx, u);
        RemoveSchEntry(u);
      }
    }

    /** Among the allocated units the assertion fails exactly for those touched once, by their allocation. */
    lemma NeverScheduled(u: nat)
      requires Valid() && u < |idx| && idx[u] != 0
      ensures idx[u] == -1 <==> touchCnt[u] == 1
    {
    }
  }
}
