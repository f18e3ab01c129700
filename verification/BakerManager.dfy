/** The baker manager as it is in memory: status records, next pointers, and two groups with head, tail and vCnt.
    Each method of BakerManager is one mutex-held function of the source and is proved to do to the links exactly
    what its counterpart in BakerPool does to a pool value.

    A pointer to a baker node is represented by that node's bakIdx (infos[k]->baker is the only node with bakIdx
    k), and the null pointer by -1; `next[k]` is the next field of node k. */
module BakerManager {
  import opened Ordered
  import BP = BakerPool

  const NULL := -1

  datatype BakerGroup = BakerGroup(head: int, tail: int, timestamp: int, vCnt: nat)

  /** The first vCnt nodes from head are v.nodes, and v.ended says whether null follows them. */
  ghost predicate GroupIs(next: seq<int>, g: BakerGroup, v: BP.Group) {
    var n := |v.nodes|;
    && g.vCnt == n && g.timestamp == v.timestamp
    && (forall i :: 0 <= i < n ==> v.nodes[i] < |next|)
    && (if n == 0 then g.tail == NULL else g.head == v.nodes[0] && g.tail == v.nodes[n - 1])
    && (forall i :: 0 <= i < n - 1 ==> next[v.nodes[i]] == v.nodes[i + 1])
    && v.ended == ((if n == 0 then g.head else next[v.nodes[n - 1]]) == NULL)
  }

  /** What hangs off the backup list, if anything, is a node of the valid list. */
  ghost predicate TailSound(next: seq<int>, p: BP.Pool) {
    var n := |p.backup.nodes|;
    n > 0 ==> p.backup.nodes[n - 1] < |next| &&
              var x := next[p.backup.nodes[n - 1]]; x == NULL || (0 <= x && x in p.valid.nodes)
  }

  /** A node outside a list can be relinked without the list noticing. */
  lemma Relink(next: seq<int>, k: nat, x: int, g: BakerGroup, v: BP.Group)
    requires GroupIs(next, g, v) && k < |next| && k !in v.nodes
    ensures GroupIs(next[k := x], g, v)
  {
    assert forall i :: 0 <= i < |v.nodes| ==> v.nodes[i] in v.nodes;
  }

  /** Following next pointers from iter meets exactly ns and then null. */
  ghost predicate Chain(next: seq<int>, iter: int, ns: seq<nat>)
    decreases |ns|
  {
    if ns == [] then iter == NULL
    else iter == ns[0] && ns[0] < |next| && Chain(next, next[ns[0]], ns[1..])
  }

  lemma ChainRelink(next: seq<int>, k: nat, x: int, iter: int, ns: seq<nat>)
    requires Chain(next, iter, ns) && k < |next| && k !in ns
    ensures Chain(next[k := x], iter, ns)
    decreases |ns|
  {
    if ns != [] {
      ChainRelink(next, k, x, next[ns[0]], ns[1..]);
    }
  }

  lemma GroupChain(next: seq<int>, iter: int, ns: seq<nat>)
    requires forall i :: 0 <= i < |ns| ==> ns[i] < |next|
    requires forall i :: 0 <= i < |ns| - 1 ==> next[ns[i]] == ns[i + 1]
    requires (if ns == [] then iter else next[ns[|ns| - 1]]) == NULL && (ns != [] ==> iter == ns[0])
    ensures Chain(next, iter, ns)
    decreases |ns|
  {
    if |ns| > 1 {
      assert next[ns[0]] == ns[1];
      GroupChain(next, ns[1], ns[1..]);
    }
  }

  /** A group after WToR_Group has appended `done` to it. */
  ghost function Absorbed(v: BP.Group, done: seq<nat>, last: bool): BP.Group {
    v.(nodes := v.nodes + done, ended := if done == [] then v.ended else last)
  }

  lemma AbsorbOne(v: BP.Group, done: seq<nat>, rest: seq<nat>)
    requires rest != []
    ensures v.nodes + (done + rest) == Absorbed(v, done, false).nodes + rest
    ensures done + rest == (done + [rest[0]]) + rest[1..]
    ensures BP.Append(Absorbed(v, done, false), rest[0]).(ended := rest[1..] == []) ==
            Absorbed(v, done + [rest[0]], rest[1..] == [])
  {
  }

  lemma WToRParts(p: BP.Pool, infos: seq<BP.Info>)
    requires BP.Inv(p) && |infos| == |p.infos|
    requires forall k :: 0 <= k < |infos| ==>
               infos[k] == if k in p.backup.nodes then p.infos[k].(reading := true, timestamp := p.valid.timestamp)
                           else p.infos[k]
    ensures var q := BP.WToR(p);
            && BP.Inv(q) && q.infos == infos && q.maxtime == p.maxtime && q.backup == BP.Group([], true, 0)
            && q.valid == Absorbed(p.valid, p.backup.nodes, true)
  {
    BP.WToRInv(p);
    assert p.valid.nodes + [] == p.valid.nodes;
  }

  class BakerManager {
    const aCnt: nat
    var infos: seq<BP.Info>
    var next: seq<int>
    var valid: BakerGroup   // bakGroup[validGroupIdx]
    var backup: BakerGroup  // bakGroup[(validGroupIdx + 1) % 2]
    var maxtime: int
    ghost var view: BP.Pool

    ghost predicate Valid()
      reads this
    {
      && |next| == |infos| <= aCnt
      && view.infos == infos && view.maxtime == maxtime && BP.Inv(view)
      && GroupIs(next, valid, view.valid) && GroupIs(next, backup, view.backup)
    }

    constructor (cnt: nat, timestamp: int)
      ensures Valid() && view == BP.Empty(timestamp) && aCnt == cnt
    {
      aCnt := cnt;
      infos, next := [], [];
      valid := BakerGroup(NULL, NULL, 0, 0);
      backup := BakerGroup(NULL, NULL, 0, 0);
      maxtime := timestamp;
      view := BP.Empty(timestamp);
    }

    /** Appends node k to a group; whatever its next pointer is then hangs off the list.  `v` is what the group
        stands for, `o` and `w` are the other group and what it stands for. */
    method Push(g: BakerGroup, k: nat, ghost v: BP.Group, ghost o: BakerGroup, ghost w: BP.Group)
      returns (g': BakerGroup)
      requires GroupIs(next, g, v) && GroupIs(next, o, w) && k < |next| && k !in v.nodes && k !in w.nodes
      requires NoDup(v.nodes) && forall x :: x in v.nodes ==> x !in w.nodes
      modifies this`next
      ensures |next| == old(|next|) && next[k] == old(next[k])
      ensures GroupIs(next, g', BP.Append(v, k).(ended := next[k] == NULL)) && GroupIs(next, o, w)
      ensures next == if v.nodes == [] then old(next) else old(next)[g.tail := k]
    {
      g' := g.(vCnt := g.vCnt + 1);
      if g'.vCnt == 1 {
        g' := g'.(head := k, tail := k);
      } else {
        Relink(next, g'.tail, k, o, w);
        next := next[g'.tail := k];
        g' := g'.(tail := k);
      }
    }

    /** False, and nothing changed, when the table is full. */
    method LoadBakerInfo(timestamp: int) returns (ok: bool)
      requires Valid() && |view.valid.nodes| == |infos|
      modifies this
      ensures Valid() && ok == (old(|infos|) < aCnt)
      ensures view == if ok then BP.Load(old(view), timestamp) else old(view)
    {
      if aCnt == valid.vCnt {
        return false;
      }
      var bakIdx := valid.vCnt;
      assert BP.Inv(BP.Load(view, timestamp)) by { BP.LoadInv(view, timestamp); }
      infos := infos + [BP.Info(false, true, timestamp, 0, 0)];
      next := next + [NULL];
      valid := Push(valid, bakIdx, view.valid, backup, view.backup);
      view := BP.Load(view, timestamp);
      ok := true;
    }

    /** The wait for a non-empty valid list is over. */
    method AllocBaker(thr: int) returns (k: nat)
      requires Valid() && view.valid.nodes != []
      modifies this
      ensures Valid() && k == old(view).valid.nodes[0] && view == BP.Alloc(old(view), thr)
    {
      k := valid.head;
      valid := valid.(head := next[k], vCnt := valid.vCnt - 1);
      if valid.vCnt == 0 {
        valid := valid.(tail := NULL);
      }
      infos := infos[k := infos[k].(busy := true, thrId := thr, reqCnt := infos[k].reqCnt + 1)];
      BP.AllocInv(view, thr);
      view := BP.Alloc(view, thr);
    }

    /** A reader returns the baker it holds. */
    method FreeBaker(k: nat)
      requires Valid() && k < |infos| && infos[k].busy
      modifies this
      ensures Valid() && view == BP.Free(old(view), k)
    {
      Relink(next, k, NULL, valid, view.valid);
      Relink(next, k, NULL, backup, view.backup);
      next := next[k := NULL];
      var reading := infos[k].reading;
      infos := infos[k := infos[k].(busy := false, thrId := 0)];
      if reading {
        valid := Push(valid, k, view.valid, backup, view.backup);
      } else {
        backup := Push(backup, k, view.backup, valid, view.valid);
      }
      BP.FreeInv(view, k);
      view := BP.Free(view, k);
    }

    /** The search of moveBakersByIds: the node before k in the valid list, NULL when k is its head. */
    method Find(k: nat, ghost p: nat) returns (last: int)
      requires GroupIs(next, valid, view.valid) && p < |view.valid.nodes| && view.valid.nodes[p] == k
      requires forall i :: 0 <= i < p ==> view.valid.nodes[i] != k
      ensures last == if p == 0 then NULL else view.valid.nodes[p - 1]
    {
      var iter := valid.head;
      last := NULL;
      ghost var i := 0;
      while iter != k
        invariant i <= p && iter == view.valid.nodes[i]
        invariant last == if i == 0 then NULL else view.valid.nodes[i - 1]
        decreases p - i
      {
        last := iter;
        iter := next[iter];
        i := i + 1;
      }
    }

    /** Takes k out of the valid list, leaving its own next pointer as it was. */
    method Unlink(k: nat, ghost p: nat)
      requires Valid() && p < |view.valid.nodes| && view.valid.nodes[p] == k
      modifies this`next, this`valid
      ensures |next| == |infos| && next[k] == old(next[k])
      ensures (next[k] == NULL) == (view.valid.ended && p == |view.valid.nodes| - 1)
      ensures GroupIs(next, valid, view.valid.(nodes := BP.DropAt(view.valid.nodes, p)))
      ensures GroupIs(next, backup, view.backup)
    {
      ghost var ns := view.valid.nodes;
      assert p < |ns| - 1 ==> next[k] == ns[p + 1];
      assert k in ns;
      var last := Find(k, p);
      if k == valid.head {
        valid := valid.(head := next[k]);
      } else {
        assert last in ns;
        Relink(next, last, next[k], backup, view.backup);
        next := next[last := next[k]];
      }
      if k == valid.tail {
        valid := valid.(tail := last);
      }
      valid := valid.(vCnt := valid.vCnt - 1);
    }

    /** One iteration of moveBakersByIds' loop. */
    method MoveOne(k: nat)
      requires Valid() && k < |infos| && infos[k].reading
      modifies this
      ensures Valid() && view == BP.MoveOne(old(view), k)
      ensures old(view.valid.ended && TailSound(next, view)) ==> TailSound(next, view)
    {
      assert BP.Inv(BP.MoveOne(view, k)) by { BP.MoveOneInv(view, k); }
      if !infos[k].busy {
        MoveIdle(k, BP.IndexOf(view.valid.nodes, k));
      }
      infos := infos[k := infos[k].(reading := false)];
      view := BP.MoveOne(view, k);
    }

    method MoveIdle(k: nat, ghost p: nat)
      requires Valid() && p < |view.valid.nodes| && view.valid.nodes[p] == k
      modifies this`next, this`valid, this`backup
      ensures |next| == |infos|
      ensures GroupIs(next, valid, view.valid.(nodes := BP.DropAt(view.valid.nodes, p)))
      ensures GroupIs(next, backup, BP.Append(view.backup, k).(
                ended := view.valid.ended && p == |view.valid.nodes| - 1))
      ensures view.valid.ended ==>
                next[k] == NULL || (p + 1 < |view.valid.nodes| && next[k] == view.valid.nodes[p + 1])
    {
      assert p + 1 < |view.valid.nodes| ==> next[k] == view.valid.nodes[p + 1];
      Unlink(k, p);
      BP.DropAtNoDup(view.valid.nodes, p);
      assert k in view.valid.nodes;
      backup := Push(backup, k, view.backup, valid, view.valid.(nodes := BP.DropAt(view.valid.nodes, p)));
    }

    /** The check that a record sits under its own index cannot fail: loadBakerInfo put it there. */
    method MoveBakersByIds(ids: seq<nat>)
      requires Valid() && BP.Movable(view, ids)
      modifies this
      ensures Valid() && view == BP.Move(old(view), ids)
      ensures old(view.valid.ended && TailSound(next, view)) ==> TailSound(next, view)
    {
      ghost var start, sound := view, view.valid.ended && TailSound(next, view);
      var i := 0;
      assert ids[..0] == [];
      while i != |ids|
        invariant i <= |ids| && Valid() && BP.Movable(start, ids[..i]) && view == BP.Move(start, ids[..i])
        invariant sound ==> TailSound(next, view)
      {
        BP.MoveSnoc(start, ids, i);
        MoveOne(ids[i]);
        i := i + 1;
      }
      assert ids[..i] == ids;
    }

    /** The loop goes over the whole table, so every place of it must have been loaded, as the constructor of the
        source sees to. */
    method AlterGroup(timestamp: int)
      requires Valid() && |infos| == aCnt
      modifies this
      ensures Valid() && view == BP.Alter(old(view), timestamp)
    {
      valid, backup := backup, valid;
      valid := valid.(timestamp := timestamp);
      maxtime := timestamp;
      var i := 0;
      while i != aCnt
        invariant i <= aCnt == |infos| == |old(infos)|
        invariant forall k :: 0 <= k < |infos| ==>
                    infos[k] == if k < i then BP.Swapped(old(infos)[k], timestamp) else old(infos)[k]
        modifies this`infos
      {
        infos := infos[i := infos[i].(reading := !infos[i].reading)];
        if infos[i].reading {
          infos := infos[i := infos[i].(timestamp := timestamp)];
        }
        i := i + 1;
      }
      BP.AlterInv(view, timestamp);
      view := BP.Alter(view, timestamp);
      assert infos == view.infos;
    }

    /** The loop of WToR_Group.  The walk runs until a null pointer, not for vCnt nodes, so it needs the list that
        starts at iter to be null-terminated; then it visits exactly that list's bakers `ns`, in order, and stops. */
    method Absorb(head: int, ghost ns: seq<nat>, ghost v0: BP.Group)
      requires |next| == |infos| && GroupIs(next, valid, v0) && NoDup(v0.nodes + ns) && Chain(next, head, ns)
      modifies this`infos, this`next, this`valid
      ensures |next| == |infos| == old(|infos|)
      ensures GroupIs(next, valid, Absorbed(v0, ns, true))
      ensures forall k :: 0 <= k < |infos| ==>
                infos[k] == if k in ns then old(infos)[k].(reading := true, timestamp := v0.timestamp) else old(infos)[k]
    {
      ghost var done: seq<nat>, rest: seq<nat> := [], ns;
      var iter := head;
      assert Absorbed(v0, [], rest == []) == v0;
      while iter != NULL
        invariant ns == done + rest
        invariant |next| == |infos| == old(|infos|) && Chain(next, iter, rest)
        invariant GroupIs(next, valid, Absorbed(v0, done, rest == []))
        invariant forall k :: 0 <= k < |infos| ==>
                    infos[k] == if k in done then old(infos)[k].(reading := true, timestamp := v0.timestamp)
                                else old(infos)[k]
        decreases |rest|
      {
        AbsorbOne(v0, done, rest);
        var after := Append(Absorbed(v0, done, false), rest, iter);
        infos := infos[iter := infos[iter].(reading := true, timestamp := valid.timestamp)];
        done, rest := done + [iter], rest[1..];
        iter := after;
      }
      assert rest == [] && done == ns;
    }

    /** Appends the node the walk is at to the valid list and says where the walk goes next. */
    method Append(ghost v: BP.Group, ghost rest: seq<nat>, iter: nat) returns (after: int)
      requires GroupIs(next, valid, v) && NoDup(v.nodes + rest) && rest != [] && Chain(next, iter, rest)
      modifies this`next, this`valid
      ensures |next| == old(|next|) && iter == rest[0] && iter < |next| && valid.timestamp == old(valid.timestamp)
      ensures Chain(next, after, rest[1..])
      ensures GroupIs(next, valid, BP.Append(v, iter).(ended := rest[1..] == []))
    {
      ghost var all, m := v.nodes + rest, |v.nodes|;
      assert all[m] == iter && rest == [iter] + rest[1..];
      assert NoDup(v.nodes) by { assert all[..m] == v.nodes; }
      forall x | x in v.nodes ensures x !in rest {
        var i :| 0 <= i < m && v.nodes[i] == x;
        assert all[i] == x;
        assert forall j :: 0 <= j < |rest| ==> all[m + j] == rest[j];
      }
      assert v.nodes != [] ==> valid.tail in v.nodes;
      ghost var before := next;
      if v.nodes != [] { ChainRelink(next, valid.tail, iter, iter, rest); }
      valid := Push(valid, iter, v, BakerGroup(NULL, NULL, 0, 0), BP.Group([], true, 0));
      after := next[iter];
    }

    method WToRGroup()
      requires Valid() && view.backup.ended
      modifies this
      ensures Valid() && view == BP.WToR(old(view))
    {
      var iter := backup.head;
      backup := BakerGroup(NULL, NULL, 0, 0);
      assert NoDup(view.valid.nodes + view.backup.nodes) by { BP.JoinNoDup(view); }
      assert Chain(next, iter, view.backup.nodes) by { GroupChain(next, iter, view.backup.nodes); }
      Absorb(iter, view.backup.nodes, view.valid);
      WToRParts(view, infos);
      view := BP.WToR(view);
    }
  }
}
