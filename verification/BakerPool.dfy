/** The replica pool: what each mutex-held function of the baker manager does to the pool, on values.

    A pool is one record per baker (its two status bits, timestamp, owner, request count) and the two free
    lists.  `valid` is bakGroup[validGroupIdx] and `backup` the other one.  A list is the sequence of baker
    indices in its first vCnt nodes; `ended` says whether the pointer that follows the last of them (or the
    head, when there is none) is null.  The functions below keep `ended` exactly, because moveBakersByIds
    leaves nodes whose next pointer is stale. */
module BakerPool {
  import opened Ordered

  datatype Info = Info(busy: bool, reading: bool, timestamp: int, thrId: int, reqCnt: nat)

  datatype Group = Group(nodes: seq<nat>, ended: bool, timestamp: int)

  datatype Pool = Pool(infos: seq<Info>, valid: Group, backup: Group, maxtime: int)

  function IndexOf<T(==)>(s: seq<T>, x: T): (i: nat)
    requires x in s
    ensures i < |s| && s[i] == x
    ensures x !in s[..i]
  {
    if s[0] == x then 0 else
      var i := 1 + IndexOf(s[1..], x);
      assert s[..i] == [s[0]] + s[1..][..i - 1];
      i
  }

  function DropAt<T>(s: seq<T>, i: nat): seq<T>
    requires i < |s|
  {
    s[..i] + s[i + 1..]
  }

  lemma DropAtNoDup<T>(s: seq<T>, i: nat)
    requires i < |s| && NoDup(s)
    ensures NoDup(DropAt(s, i))
    ensures forall x :: x in DropAt(s, i) <==> x in s && x != s[i]
  {
    forall x | x in s && x != s[i] ensures x in DropAt(s, i) {
      var j :| 0 <= j < |s| && s[j] == x;
      assert DropAt(s, i)[if j < i then j else j - 1] == x;
    }
  }

  /** The pool invariant: the lists hold exactly the idle bakers, split by the READING bit, each baker once. */
  ghost predicate Inv(p: Pool) {
    && NoDup(p.valid.nodes) && NoDup(p.backup.nodes)
    && (forall i :: 0 <= i < |p.valid.nodes| ==> p.valid.nodes[i] < |p.infos|)
    && (forall i :: 0 <= i < |p.backup.nodes| ==> p.backup.nodes[i] < |p.infos|)
    && (forall k :: 0 <= k < |p.infos| ==>
          && (k in p.valid.nodes <==> !p.infos[k].busy && p.infos[k].reading)
          && (k in p.backup.nodes <==> !p.infos[k].busy && !p.infos[k].reading))
  }

  /** The first n bakers. */
  function Ids(n: nat): seq<nat> { seq(n, i => i) }

  function Append(g: Group, k: nat): Group {
    g.(nodes := g.nodes + [k], ended := true)
  }

  function Empty(timestamp: int): Pool {
    Pool([], Group([], true, 0), Group([], true, 0), timestamp)
  }

  /** loadBakerInfo, for a baker fresh from eggRWSBakerInfo_new. */
  function Load(p: Pool, timestamp: int): Pool {
    p.(infos := p.infos + [Info(false, true, timestamp, 0, 0)], valid := Append(p.valid, |p.infos|))
  }

  function Loaded(n: nat, timestamp: int): Pool {
    if n == 0 then Empty(timestamp) else Load(Loaded(n - 1, timestamp), timestamp)
  }

  /** alloc_baker once its wait is over. */
  function Alloc(p: Pool, thr: int): Pool
    requires p.valid.nodes != [] && p.valid.nodes[0] < |p.infos|
  {
    var k := p.valid.nodes[0];
    p.(infos := p.infos[k := p.infos[k].(busy := true, thrId := thr, reqCnt := p.infos[k].reqCnt + 1)],
       valid := p.valid.(nodes := p.valid.nodes[1..]))
  }

  function Free(p: Pool, k: nat): Pool
    requires k < |p.infos|
  {
    var q := p.(infos := p.infos[k := p.infos[k].(busy := false, thrId := 0)]);
    if p.infos[k].reading then q.(valid := Append(p.valid, k)) else q.(backup := Append(p.backup, k))
  }

  /** One iteration of moveBakersByIds: an idle baker changes lists, a busy one only loses its READING bit. */
  function MoveOne(p: Pool, k: nat): Pool
    requires k < |p.infos| && (!p.infos[k].busy ==> k in p.valid.nodes)
  {
    var q := p.(infos := p.infos[k := p.infos[k].(reading := false)]);
    if p.infos[k].busy then q else
      var i := IndexOf(p.valid.nodes, k);
      q.(valid := p.valid.(nodes := DropAt(p.valid.nodes, i)),
         backup := p.backup.(nodes := p.backup.nodes + [k],
                             ended := p.valid.ended && i == |p.valid.nodes| - 1))
  }

  /** What moveBakersByIds asks of its caller: known, distinct ids of bakers that are READING. */
  ghost predicate Movable(p: Pool, ids: seq<nat>) {
    NoDup(ids) && forall i :: 0 <= i < |ids| ==> ids[i] < |p.infos| && p.infos[ids[i]].reading
  }

  ghost function Move(p: Pool, ids: seq<nat>): (q: Pool)
    requires Inv(p) && Movable(p, ids)
    ensures Inv(q) && |q.infos| == |p.infos|
    ensures forall k :: 0 <= k < |p.infos| ==>
              q.infos[k] == if k in ids then p.infos[k].(reading := false) else p.infos[k]
    ensures q.valid.ended == p.valid.ended && q.valid.timestamp == p.valid.timestamp
    ensures q.maxtime == p.maxtime
    decreases |ids|
  {
    if ids == [] then p else
      var last := |ids| - 1;
      var q := Move(p, ids[..last]);
      assert ids == ids[..last] + [ids[last]];
      MoveOneInv(q, ids[last]);
      MoveOne(q, ids[last])
  }

  lemma MoveSnoc(p: Pool, ids: seq<nat>, i: nat)
    requires Inv(p) && Movable(p, ids) && i < |ids|
    ensures Movable(p, ids[..i]) && Movable(p, ids[..i + 1])
    ensures var q := Move(p, ids[..i]);
            && ids[i] < |q.infos| && q.infos[ids[i]].reading && (!q.infos[ids[i]].busy ==> ids[i] in q.valid.nodes)
            && q.valid.ended == p.valid.ended
            && Move(p, ids[..i + 1]) == MoveOne(q, ids[i])
  {
    assert ids[..i + 1][..i] == ids[..i];
  }

  /** Those of ids that are idle, in their order. */
  function IdleOf(p: Pool, ids: seq<nat>): seq<nat> {
    if ids == [] then [] else
      var k := ids[|ids| - 1];
      IdleOf(p, ids[..|ids| - 1]) + if k < |p.infos| && !p.infos[k].busy then [k] else []
  }

  /** Moved bakers that are idle go behind the backup list, in the order in which they are named. */
  lemma {:induction false} MoveAppends(p: Pool, ids: seq<nat>)
    requires Inv(p) && Movable(p, ids)
    ensures Move(p, ids).backup.nodes == p.backup.nodes + IdleOf(p, ids)
    decreases |ids|
  {
    if ids == [] {
      assert p.backup.nodes + [] == p.backup.nodes;
    } else {
      var front, x := ids[..|ids| - 1], ids[|ids| - 1];
      assert ids == front + [x];
      MoveAppends(p, front);
      MoveOneMore(p, front, x);
      IdleOneMore(p, front, x);
      Tail(p.backup.nodes, IdleOf(p, front), if p.infos[x].busy then [] else [x]);
    }
  }

  lemma MoveOneAppends(p: Pool, k: nat)
    requires k < |p.infos| && (!p.infos[k].busy ==> k in p.valid.nodes)
    ensures MoveOne(p, k).backup.nodes == p.backup.nodes + if p.infos[k].busy then [] else [k]
  {
    assert p.backup.nodes + [] == p.backup.nodes;
  }

  lemma MoveOneMore(p: Pool, front: seq<nat>, x: nat)
    requires Inv(p) && Movable(p, front + [x])
    ensures Movable(p, front) && x < |p.infos|
    ensures Move(p, front + [x]).backup.nodes ==
            Move(p, front).backup.nodes + if p.infos[x].busy then [] else [x]
  {
    var ids := front + [x];
    assert ids[..|front|] == front && ids[..|front| + 1] == ids && ids[|front|] == x;
    MoveSnoc(p, ids, |front|);
    MoveOneAppends(Move(p, front), x);
  }

  lemma IdleOneMore(p: Pool, front: seq<nat>, x: nat)
    requires x < |p.infos|
    ensures IdleOf(p, front + [x]) == IdleOf(p, front) + if p.infos[x].busy then [] else [x]
  {
    assert (front + [x])[..|front|] == front;
  }

  lemma Tail(a: seq<nat>, b: seq<nat>, c: seq<nat>)
    ensures (a + b) + c == a + (b + c)
    ensures c == [] ==> b + c == b
  {
  }

  function Swapped(i: Info, timestamp: int): Info {
    if i.reading then i.(reading := false) else i.(reading := true, timestamp := timestamp)
  }

  function Alter(p: Pool, timestamp: int): Pool {
    Pool(seq(|p.infos|, k requires 0 <= k < |p.infos| => Swapped(p.infos[k], timestamp)),
         p.backup.(timestamp := timestamp), p.valid, timestamp)
  }

  function WToR(p: Pool): Pool {
    Pool(seq(|p.infos|, k requires 0 <= k < |p.infos| =>
           if k in p.backup.nodes then p.infos[k].(reading := true, timestamp := p.valid.timestamp) else p.infos[k]),
         if p.backup.nodes == [] then p.valid
         else p.valid.(nodes := p.valid.nodes + p.backup.nodes, ended := true),
         Group([], true, 0), p.maxtime)
  }

  // ----- every step keeps the invariant

  lemma LoadInv(p: Pool, timestamp: int)
    requires Inv(p)
    ensures Inv(Load(p, timestamp))
  {
  }

  lemma {:induction false} LoadedInv(n: nat, timestamp: int)
    ensures var p := Loaded(n, timestamp);
            && Inv(p) && |p.infos| == n && p.valid.ended && p.backup == Group([], true, 0) && p.maxtime == timestamp
            && forall k :: 0 <= k < n ==> p.infos[k] == Info(false, true, timestamp, 0, 0)
  {
    if n == 0 {
    } else {
      LoadedInv(n - 1, timestamp);
      LoadInv(Loaded(n - 1, timestamp), timestamp);
    }
  }

  lemma AllocInv(p: Pool, thr: int)
    requires Inv(p) && p.valid.nodes != []
    ensures Inv(Alloc(p, thr))
    ensures var k, q := p.valid.nodes[0], Alloc(p, thr);
            && p.valid.nodes == [k] + q.valid.nodes && q.backup == p.backup && |q.infos| == |p.infos|
            && q.infos[k].busy && q.infos[k].thrId == thr && q.infos[k].reqCnt == p.infos[k].reqCnt + 1
            && q.infos[k].reading && q.infos[k].timestamp == p.infos[k].timestamp
            && forall i :: 0 <= i < |p.infos| && i != k ==> q.infos[i] == p.infos[i]
  {
    var ns := p.valid.nodes;
    DropAtNoDup(ns, 0);
    assert DropAt(ns, 0) == ns[1..];
  }

  lemma FreeInv(p: Pool, k: nat)
    requires Inv(p) && k < |p.infos| && p.infos[k].busy
    ensures Inv(Free(p, k))
    ensures var q := Free(p, k);
            && |q.infos| == |p.infos| && !q.infos[k].busy && q.infos[k].thrId == 0
            && q.infos[k].reading == p.infos[k].reading && q.infos[k].reqCnt == p.infos[k].reqCnt
            && q.infos[k].timestamp == p.infos[k].timestamp
            && (forall i :: 0 <= i < |p.infos| && i != k ==> q.infos[i] == p.infos[i])
            && (if p.infos[k].reading then q.valid.nodes == p.valid.nodes + [k] && q.backup == p.backup
                else q.valid == p.valid && q.backup.nodes == p.backup.nodes + [k])
  {
  }

  lemma MoveOneInv(p: Pool, k: nat)
    requires Inv(p) && k < |p.infos| && p.infos[k].reading
    ensures Inv(MoveOne(p, k))
  {
    if !p.infos[k].busy {
      DropAtNoDup(p.valid.nodes, IndexOf(p.valid.nodes, k));
    }
  }

  lemma AlterInv(p: Pool, timestamp: int)
    requires Inv(p)
    ensures Inv(Alter(p, timestamp))
    ensures var q := Alter(p, timestamp);
            && |q.infos| == |p.infos| && q.maxtime == timestamp && q.valid.timestamp == timestamp
            && q.valid.nodes == p.backup.nodes && q.backup.nodes == p.valid.nodes
            && forall k :: 0 <= k < |p.infos| ==>
                 && q.infos[k].reading == !p.infos[k].reading && q.infos[k].busy == p.infos[k].busy
                 && q.infos[k].thrId == p.infos[k].thrId && q.infos[k].reqCnt == p.infos[k].reqCnt
                 && q.infos[k].timestamp == if p.infos[k].reading then p.infos[k].timestamp else timestamp
  {
  }

  lemma JoinNoDup(p: Pool)
    requires Inv(p)
    ensures NoDup(p.valid.nodes + p.backup.nodes)
  {
    assert forall i, j :: 0 <= i < |p.valid.nodes| && 0 <= j < |p.backup.nodes| ==>
        p.valid.nodes[i] != p.backup.nodes[j] by {
      assert forall i :: 0 <= i < |p.valid.nodes| ==> p.valid.nodes[i] in p.valid.nodes;
      assert forall j :: 0 <= j < |p.backup.nodes| ==> p.backup.nodes[j] in p.backup.nodes;
    }
  }

  lemma WToRInv(p: Pool)
    requires Inv(p)
    ensures Inv(WToR(p))
    ensures var q := WToR(p);
            && |q.infos| == |p.infos| && q.maxtime == p.maxtime
            && q.valid.nodes == p.valid.nodes + p.backup.nodes && q.backup.nodes == [] && q.backup.ended
            && forall k :: 0 <= k < |p.infos| ==>
                 && q.infos[k].busy == p.infos[k].busy && q.infos[k].thrId == p.infos[k].thrId
                 && q.infos[k].reqCnt == p.infos[k].reqCnt
                 && (!p.infos[k].busy ==> q.infos[k].reading)
                 && (p.infos[k].busy || p.infos[k].reading ==> q.infos[k] == p.infos[k])
                 && (!p.infos[k].busy && !p.infos[k].reading ==> q.infos[k].timestamp == p.valid.timestamp)
  {
    assert forall k :: k in p.valid.nodes ==> k !in p.backup.nodes;
  }

  // ----- bakers take turns

  /** n bakers are allocated, one after the other. */
  ghost function AllocMany(p: Pool, n: nat): (q: Pool)
    requires Inv(p) && n <= |p.valid.nodes|
    ensures Inv(q) && |q.infos| == |p.infos| && q.valid.nodes == p.valid.nodes[n..]
  {
    if n == 0 then p else
      var q := AllocMany(p, n - 1);
      AllocInv(q, 0);
      Alloc(q, 0)
  }

  /** A READING baker that is given back is taken again only after all that are idle at that time. */
  lemma LastFreedLastTaken(p: Pool, k: nat, n: nat)
    requires Inv(p) && k < |p.infos| && p.infos[k].busy && p.infos[k].reading && n <= |p.valid.nodes|
    ensures Inv(Free(p, k)) && n < |Free(p, k).valid.nodes|
    ensures var next := AllocMany(Free(p, k), n).valid.nodes[0];
            next == if n < |p.valid.nodes| then p.valid.nodes[n] else k
    ensures n < |p.valid.nodes| ==> p.valid.nodes[n] != k
  {
    FreeInv(p, k);
    if n < |p.valid.nodes| { assert p.valid.nodes[n] in p.valid.nodes; }
  }
}
