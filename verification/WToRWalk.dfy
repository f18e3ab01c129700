/** When does the loop of WToR_Group end?  It follows next pointers to null while it relinks the very nodes it
    follows, and moveBakersByIds leaves stale pointers behind, so this is not obvious.  Here the loop is taken one
    iteration at a time, on links in any state that BakerManager.Valid and TailSound allow. */
module WToRWalk {
  import opened Ordered
  import BP = BakerPool
  import opened BakerManager

  /** The state of the loop: the links, the tail of the valid list, and lp_write_iter. */
  datatype Walk = Walk(next: seq<int>, tail: int, iter: int)

  ghost predicate Sane(w: Walk) {
    w.tail < |w.next| && w.iter < |w.next|
  }

  function Step(w: Walk): Walk
    requires Sane(w) && 0 <= w.iter && 0 <= w.tail
  {
    var next := w.next[w.tail := w.iter];
    Walk(next, w.iter, next[w.iter])
  }

  ghost function After(w: Walk, n: nat): Walk {
    if n == 0 then w else
      var v := After(w, n - 1);
      if Sane(v) && 0 <= v.iter && 0 <= v.tail then Step(v) else v
  }

  /** The links of a pool, with a non-empty valid list that is null-terminated, and a non-empty backup list. */
  ghost predicate Ready(next: seq<int>, valid: BakerGroup, backup: BakerGroup, p: BP.Pool) {
    && BP.Inv(p) && |next| == |p.infos|
    && GroupIs(next, valid, p.valid) && GroupIs(next, backup, p.backup) && TailSound(next, p)
    && p.valid.nodes != [] && p.valid.ended && p.backup.nodes != []
  }

  function Start(next: seq<int>, valid: BakerGroup, backup: BakerGroup): Walk {
    Walk(next, valid.tail, backup.head)
  }

  // ----- null-terminated: the walk ends

  lemma {:induction false} Ends(w: Walk, ns: seq<nat>) returns (n: nat)
    requires Sane(w) && 0 <= w.tail && Chain(w.next, w.iter, ns) && w.tail !in ns && NoDup(ns)
    ensures After(w, n).iter == NULL
    decreases |ns|
  {
    if ns == [] {
      n := 0;
    } else {
      ChainRelink(w.next, w.tail, w.iter, w.iter, ns);
      assert ns[0] !in ns[1..];
      var v := Step(w);
      assert v.iter < |v.next| by { assert ns[1..] == [] || ns[1] < |w.next|; }
      var m := Ends(v, ns[1..]);
      AfterStep(w, m);
      n := m + 1;
    }
  }

  lemma {:induction false} AfterStep(w: Walk, n: nat)
    requires Sane(w) && 0 <= w.iter && 0 <= w.tail
    ensures After(w, n + 1) == After(Step(w), n)
  {
    if n > 0 {
      AfterStep(w, n - 1);
    }
  }

  // ----- stale pointer: the walk goes round for ever

  /** Every link out of `s` leads back into it, and the walk is in it. */
  ghost predicate Closed(w: Walk, s: set<int>) {
    && w.iter in s && w.tail in s
    && forall x :: x in s ==> 0 <= x < |w.next| && w.next[x] in s
  }

  lemma {:induction false} ForEver(w: Walk, s: set<int>, n: nat)
    requires Closed(w, s)
    ensures Closed(After(w, n), s)
  {
    if n > 0 {
      ForEver(w, s, n - 1);
    }
  }

  lemma FirstStepCloses(next: seq<int>, valid: BakerGroup, backup: BakerGroup, p: BP.Pool) returns (s: set<int>)
    requires Ready(next, valid, backup, p) && !p.backup.ended
    ensures Sane(Start(next, valid, backup)) && 0 <= backup.head && 0 <= valid.tail
    ensures Closed(Step(Start(next, valid, backup)), s) && NULL !in s
  {
    var vs, bs := p.valid.nodes, p.backup.nodes;
    s := (set k | k in vs) + (set k | k in bs);
    assert bs[0] in bs && bs[0] in s && vs[0] in vs;
    var w := Step(Start(next, valid, backup));
    assert valid.tail == vs[|vs| - 1] && backup.head == bs[0];
    forall x | x in s ensures 0 <= x < |next| && w.next[x] in s {
      if x in vs {
        var i :| 0 <= i < |vs| && vs[i] == x;
        assert i < |vs| - 1 ==> vs[i + 1] in vs;
      } else {
        var i :| 0 <= i < |bs| && bs[i] == x;
        assert i < |bs| - 1 ==> bs[i + 1] in bs;
      }
    }
    assert w.iter == w.next[bs[0]] && bs[0] in s;
  }

  /** WToR_Group ends exactly when nothing hangs off the backup list.  So calling it straight after
      moveBakersByIds (TailSound is what that leaves) loops for ever unless the last idle baker moved was the
      tail of the valid list. */
  lemma EndsIffEnded(next: seq<int>, valid: BakerGroup, backup: BakerGroup, p: BP.Pool)
    requires Ready(next, valid, backup, p)
    ensures (exists n: nat :: After(Start(next, valid, backup), n).iter == NULL) <==> p.backup.ended
  {
    var w, bs := Start(next, valid, backup), p.backup.nodes;
    assert p.valid.nodes[|p.valid.nodes| - 1] in p.valid.nodes && valid.tail !in bs;
    if p.backup.ended {
      GroupChain(next, backup.head, bs);
      var n := Ends(w, bs);
    } else {
      var s := FirstStepCloses(next, valid, backup, p);
      forall n: nat ensures After(w, n).iter != NULL {
        if n > 0 {
          AfterStep(w, n - 1);
          ForEver(Step(w), s, n - 1);
        }
      }
    }
  }

  // ----- the walk straight after moving

  /** What is left of a list when the bakers of `ids` are taken out. */
  function Left(ns: seq<nat>, ids: seq<nat>): seq<nat> {
    if ns == [] then [] else
      Left(ns[..|ns| - 1], ids) + if ns[|ns| - 1] in ids then [] else [ns[|ns| - 1]]
  }

  lemma {:induction false} LeftIn(ns: seq<nat>, ids: seq<nat>, k: nat)
    ensures k in Left(ns, ids) <==> k in ns && k !in ids
  {
    if ns != [] {
      LeftIn(ns[..|ns| - 1], ids, k);
      assert ns == ns[..|ns| - 1] + [ns[|ns| - 1]];
    }
  }

  lemma {:induction false} LeftAll(ns: seq<nat>)
    ensures Left(ns, []) == ns
  {
    if ns != [] {
      LeftAll(ns[..|ns| - 1]);
      assert ns == ns[..|ns| - 1] + [ns[|ns| - 1]];
    }
  }

  /** A baker that is in no list leaves the list as it is. */
  lemma {:induction false} LeftSame(ns: seq<nat>, ids: seq<nat>, k: nat)
    requires k !in ns
    ensures Left(ns, ids + [k]) == Left(ns, ids)
  {
    if ns != [] {
      LeftSame(ns[..|ns| - 1], ids, k);
    }
  }

  /** One that is in the list is taken out of it. */
  lemma {:induction false} LeftOneLess(ns: seq<nat>, ids: seq<nat>, k: nat)
    requires NoDup(ns) && k in ns && k !in ids
    ensures k in Left(ns, ids)
    ensures Left(ns, ids + [k]) == BP.DropAt(Left(ns, ids), BP.IndexOf(Left(ns, ids), k))
  {
    var n := |ns| - 1;
    var front, last := ns[..n], ns[n];
    assert ns == front + [last];
    LeftIn(ns, ids, k);
    LeftIn(front, ids, k);
    if last == k {
      LeftSame(front, ids, k);
      DropLast(Left(front, ids), k);
    } else {
      LeftOneLess(front, ids, k);
      if last !in ids { DropBefore(Left(front, ids), last, k); }
    }
  }

  lemma {:induction false} IndexInFront(ns: seq<nat>, last: nat, k: nat)
    requires k in ns
    ensures k in ns + [last] && BP.IndexOf(ns + [last], k) == BP.IndexOf(ns, k)
  {
    if ns[0] != k {
      assert (ns + [last])[1..] == ns[1..] + [last];
      IndexInFront(ns[1..], last, k);
    }
  }

  lemma DropBefore(ns: seq<nat>, last: nat, k: nat)
    requires k in ns
    ensures k in ns + [last]
    ensures BP.DropAt(ns + [last], BP.IndexOf(ns + [last], k)) == BP.DropAt(ns, BP.IndexOf(ns, k)) + [last]
  {
    IndexInFront(ns, last, k);
  }

  lemma {:induction false} DropLast(ns: seq<nat>, k: nat)
    requires k !in ns
    ensures k in ns + [k] && BP.IndexOf(ns + [k], k) == |ns|
    ensures BP.DropAt(ns + [k], BP.IndexOf(ns + [k], k)) == ns
  {
    if ns != [] {
      assert (ns + [k])[1..] == ns[1..] + [k];
      DropLast(ns[1..], k);
    }
  }

  /** The list that moving leaves. */
  lemma {:induction false} MoveLeaves(p: BP.Pool, ids: seq<nat>)
    requires BP.Inv(p) && BP.Movable(p, ids)
    ensures BP.Move(p, ids).valid.nodes == Left(p.valid.nodes, ids)
    decreases |ids|
  {
    if ids == [] {
      LeftAll(p.valid.nodes);
    } else {
      var n := |ids| - 1;
      var k, front := ids[n], ids[..n];
      assert ids == front + [k] && ids[..n + 1] == ids;
      BP.MoveSnoc(p, ids, n);
      MoveLeaves(p, front);
      if p.infos[k].busy { LeftSame(p.valid.nodes, front, k); } else { LeftOneLess(p.valid.nodes, front, k); }
    }
  }

  /** Everything behind k in the list is moved, too. */
  ghost predicate AllBehind(ns: seq<nat>, k: nat, ids: seq<nat>)
    requires k in ns
  {
    forall j :: BP.IndexOf(ns, k) < j < |ns| ==> ns[j] in ids
  }

  lemma BehindMore(ns: seq<nat>, last: nat, k: nat, ids: seq<nat>)
    requires k in ns
    ensures k in ns + [last]
    ensures AllBehind(ns + [last], k, ids) <==> AllBehind(ns, k, ids) && last in ids
  {
    IndexInFront(ns, last, k);
    assert (ns + [last])[|ns|] == last;
    assert forall j :: 0 <= j < |ns| ==> (ns + [last])[j] == ns[j];
  }

  lemma {:induction false} LastLeft(ns: seq<nat>, ids: seq<nat>, k: nat)
    requires NoDup(ns) && k in ns && k !in ids
    ensures k in Left(ns, ids)
    ensures BP.IndexOf(Left(ns, ids), k) == |Left(ns, ids)| - 1 <==> AllBehind(ns, k, ids)
  {
    var n := |ns| - 1;
    var front, last := ns[..n], ns[n];
    assert ns == front + [last];
    LeftIn(ns, ids, k);
    if last == k {
      LeftIn(front, ids, k);
      DropLast(Left(front, ids), k);
      DropLast(front, k);
    } else {
      LastLeft(front, ids, k);
      BehindMore(front, last, k, ids);
      if last in ids {
        assert Left(front, ids) + [] == Left(front, ids) == Left(ns, ids);
      } else {
        IndexInFront(Left(front, ids), last, k);
      }
    }
  }

  /** ids[i] is the last of them that is idle. */
  ghost predicate LastIdle(p: BP.Pool, ids: seq<nat>, i: nat)
    requires BP.Inv(p) && BP.Movable(p, ids)
  {
    i < |ids| && !p.infos[ids[i]].busy && forall j :: i < j < |ids| ==> p.infos[ids[j]].busy
  }

  lemma LastMoved(p: BP.Pool, front: seq<nat>, k: nat)
    requires BP.Inv(p) && BP.Movable(p, front) && k < |p.infos| && p.infos[k].reading && !p.infos[k].busy && k !in front
    ensures k in p.valid.nodes
    ensures var r := BP.Move(p, front);
            && k < |r.infos| && !r.infos[k].busy && k in r.valid.nodes
            && (BP.MoveOne(r, k).backup.ended <==> p.valid.ended && AllBehind(p.valid.nodes, k, front))
  {
    MoveLeaves(p, front);
    LastLeft(p.valid.nodes, front, k);
  }

  /** What decides whether the backup list is null-terminated after moving, on the pool before: every baker that stands
      behind the last idle one of those that are moved must be moved, too. */
  lemma {:induction false} EndedAfterMove(p: BP.Pool, ids: seq<nat>, i: nat)
    requires BP.Inv(p) && BP.Movable(p, ids) && LastIdle(p, ids, i)
    ensures ids[i] in p.valid.nodes
    ensures BP.Move(p, ids).backup.ended <==> p.valid.ended && AllBehind(p.valid.nodes, ids[i], ids)
    decreases |ids|
  {
    var n := |ids| - 1;
    var front, x := ids[..n], ids[n];
    assert ids == front + [x];
    MoveFrontOne(p, front, x);
    if i == n {
      LastMoved(p, front, x);
    } else {
      assert LastIdle(p, front, i) && front[i] == ids[i];
      EndedAfterMove(p, front, i);
    }
    BehindSame(p.valid.nodes, ids[i], front, x);
  }

  lemma MoveFrontOne(p: BP.Pool, front: seq<nat>, x: nat)
    requires BP.Inv(p) && BP.Movable(p, front + [x])
    ensures BP.Movable(p, front)
    ensures var q := BP.Move(p, front);
            && x < |q.infos| && q.infos[x] == p.infos[x] && (!q.infos[x].busy ==> x in q.valid.nodes)
            && BP.Move(p, front + [x]) == BP.MoveOne(q, x)
            && (p.infos[x].busy ==> x !in p.valid.nodes && BP.Move(p, front + [x]).backup == q.backup)
  {
    var ids := front + [x];
    assert ids[..|front|] == front && ids[..|front| + 1] == ids && ids[|front|] == x;
    BP.MoveSnoc(p, ids, |front|);
  }

  /** Neither the baker itself nor a busy one stands behind it. */
  lemma BehindSame(ns: seq<nat>, k: nat, ids: seq<nat>, x: nat)
    requires NoDup(ns) && k in ns && (x == k || x !in ns)
    ensures AllBehind(ns, k, ids + [x]) <==> AllBehind(ns, k, ids)
  {
  }

  /** WToR_Group straight after moveBakersByIds, on any links that stand for the pool: it ends if and only if every baker
      behind the last idle one that was moved was moved, too. */
  lemma EndsAfterMoveIff(p: BP.Pool, ids: seq<nat>, i: nat, next: seq<int>, valid: BakerGroup, backup: BakerGroup)
    requires BP.Inv(p) && BP.Movable(p, ids) && LastIdle(p, ids, i) && Ready(next, valid, backup, BP.Move(p, ids))
    ensures ids[i] in p.valid.nodes
    ensures (exists n: nat :: After(Start(next, valid, backup), n).iter == NULL) <==>
            AllBehind(p.valid.nodes, ids[i], ids)
  {
    EndedAfterMove(p, ids, i);
    EndsIffEnded(next, valid, backup, BP.Move(p, ids));
  }

  lemma {:induction false} LoadedNodes(n: nat)
    ensures BP.Loaded(n, 0).valid.nodes == BP.Ids(n)
  {
    BP.LoadedInv(n, 0);
    if n > 0 {
      BP.LoadedInv(n - 1, 0);
      LoadedNodes(n - 1);
    }
  }

  lemma LastStays(n: nat)
    requires n >= 2
    ensures n / 2 - 1 in BP.Ids(n) && !AllBehind(BP.Ids(n), n / 2 - 1, BP.Ids(n / 2))
  {
    var k := n / 2 - 1;
    assert BP.Ids(n)[k] == k && BP.Ids(n)[n - 1] == n - 1;
    assert BP.IndexOf(BP.Ids(n), k) == k;
  }

  /** In a pool of two bakers or more as it is loaded, moving the first half leaves others behind it: WToR_Group, called
      without the cycle's steps in between, goes round for ever. */
  lemma WrongOrderNeverEnds(n: nat, next: seq<int>, valid: BakerGroup, backup: BakerGroup)
    requires n >= 2
    requires BP.Inv(BP.Loaded(n, 0)) && BP.Movable(BP.Loaded(n, 0), BP.Ids(n / 2))
    requires Ready(next, valid, backup, BP.Move(BP.Loaded(n, 0), BP.Ids(n / 2)))
    ensures forall k: nat :: After(Start(next, valid, backup), k).iter != NULL
  {
    var p, ids := BP.Loaded(n, 0), BP.Ids(n / 2);
    BP.LoadedInv(n, 0);
    LoadedNodes(n);
    EndsAfterMoveIff(p, ids, n / 2 - 1, next, valid, backup);
    LastStays(n);
  }

  /** In another order it need not: two bakers, the second of the list moved. */
  lemma OtherOrderEnds(next: seq<int>, valid: BakerGroup, backup: BakerGroup)
    requires var p := BP.Loaded(2, 0).(valid := BP.Group([1, 0], true, 0));
             BP.Inv(p) && BP.Movable(p, [0]) && Ready(next, valid, backup, BP.Move(p, [0]))
    ensures exists n: nat :: After(Start(next, valid, backup), n).iter == NULL
  {
    var p := BP.Loaded(2, 0).(valid := BP.Group([1, 0], true, 0));
    BP.LoadedInv(2, 0);
    EndsAfterMoveIff(p, [0], 0, next, valid, backup);
    assert BP.IndexOf([1, 0], 0) == 1;
  }
}
