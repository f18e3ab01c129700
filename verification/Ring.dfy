/** One of the two circular doubly linked lists that descriptors are chained in, on its pointers.  A descriptor
    holds one pair of links for each list; a Ring is the links of one list.  `HEAD` stands for the descriptor
    embedded in the manager, `NULL` for the null pointer, and a handle for its descriptor. */
module Ring {
  import opened Ordered
  import opened Descriptors

  const HEAD := -2
  const NULL := -1

  /** `next` goes from each node to the one after it, and back to HEAD after the last. */
  ghost predicate Forward(next: map<int, int>, s: seq<Handle>) {
    && HEAD in next && next[HEAD] == (if s == [] then HEAD else s[0])
    && (forall i :: 0 <= i < |s| ==> s[i] in next)
    && (forall i :: 0 <= i < |s| - 1 ==> next[s[i]] == s[i + 1])
    && (s != [] ==> next[s[|s| - 1]] == HEAD)
  }

  /** `prev` is its inverse. */
  ghost predicate Backward(prev: map<int, int>, s: seq<Handle>) {
    && HEAD in prev && prev[HEAD] == (if s == [] then HEAD else s[|s| - 1])
    && (forall i :: 0 <= i < |s| ==> s[i] in prev)
    && (forall i :: 0 < i < |s| ==> prev[s[i]] == s[i - 1])
    && (s != [] ==> prev[s[0]] == HEAD)
  }

  lemma {:induction false} MutuallyInverse(next: map<int, int>, prev: map<int, int>, s: seq<Handle>, x: int)
    requires Forward(next, s) && Backward(prev, s) && (x == HEAD || (0 <= x && x in s))
    ensures x in next && x in prev && next[x] in prev && prev[x] in next
    ensures prev[next[x]] == x && next[prev[x]] == x
  {
    if x != HEAD {
      var i :| 0 <= i < |s| && s[i] == x;
      assert 0 < i ==> next[s[i - 1]] == s[i];
      assert i < |s| - 1 ==> prev[s[i + 1]] == s[i];
    }
  }

  function NodeAt(s: seq<Handle>, i: int): int {
    if 0 <= i < |s| then s[i] else HEAD
  }

  lemma ForwardInsert(next: map<int, int>, s: seq<Handle>, i: nat, p: Handle)
    requires Forward(next, s) && NoDup(s) && p !in s && i <= |s|
    ensures Forward(next[p := NodeAt(s, i)][NodeAt(s, i - 1) := p], InsertAt(s, i, p))
  {
    var t, n := InsertAt(s, i, p), next[p := NodeAt(s, i)][NodeAt(s, i - 1) := p];
    forall j | 0 <= j < |t| - 1 ensures n[t[j]] == t[j + 1] {
      if j < i - 1 {
        assert t[j] == s[j] && s[j] in s && s[j] != s[i - 1];
      } else if j > i {
        assert t[j] == s[j - 1] && s[j - 1] in s && next[s[j - 1]] == s[j];
      }
    }
    assert s != [] ==> s[|s| - 1] in s;
  }

  lemma BackwardInsert(prev: map<int, int>, s: seq<Handle>, i: nat, p: Handle)
    requires Backward(prev, s) && NoDup(s) && p !in s && i <= |s|
    ensures NodeAt(s, i) in prev && prev[NodeAt(s, i)] == NodeAt(s, i - 1)
    ensures Backward(prev[p := NodeAt(s, i - 1)][NodeAt(s, i) := p], InsertAt(s, i, p))
  {
    var t, n := InsertAt(s, i, p), prev[p := NodeAt(s, i - 1)][NodeAt(s, i) := p];
    forall j | 0 < j < |t| ensures n[t[j]] == t[j - 1] {
      if j < i {
        assert t[j] == s[j] && s[j] in s && prev[s[j]] == s[j - 1];
      } else if j > i + 1 {
        assert t[j] == s[j - 1] && s[j - 1] in s && s[j - 1] != s[i];
      }
    }
    assert s != [] ==> s[0] in s;
  }

  lemma ForwardRemove(next: map<int, int>, s: seq<Handle>, i: nat)
    requires Forward(next, s) && NoDup(s) && i < |s|
    ensures next[s[i]] == NodeAt(s, i + 1)
    ensures Forward(next[NodeAt(s, i - 1) := NodeAt(s, i + 1)][s[i] := NULL], s[..i] + s[i + 1..])
  {
    var t, n := s[..i] + s[i + 1..], next[NodeAt(s, i - 1) := NodeAt(s, i + 1)][s[i] := NULL];
    forall j | 0 <= j < |t| - 1 ensures n[t[j]] == t[j + 1] {
      if j < i - 1 {
        assert t[j] == s[j] && s[j] != s[i - 1];
      } else if j >= i {
        assert t[j] == s[j + 1] && next[s[j + 1]] == s[j + 2];
      }
    }
  }

  lemma BackwardRemove(prev: map<int, int>, s: seq<Handle>, i: nat)
    requires Backward(prev, s) && NoDup(s) && i < |s|
    ensures prev[s[i]] == NodeAt(s, i - 1)
    ensures Backward(prev[NodeAt(s, i + 1) := NodeAt(s, i - 1)][s[i] := NULL], s[..i] + s[i + 1..])
  {
    var t, n := s[..i] + s[i + 1..], prev[NodeAt(s, i + 1) := NodeAt(s, i - 1)][s[i] := NULL];
    forall j | 0 < j < |t| ensures n[t[j]] == t[j - 1] {
      if j < i {
        assert t[j] == s[j] && prev[s[j]] == s[j - 1];
      } else if j > i {
        assert t[j] == s[j + 1] && s[j + 1] != s[i + 1];
      }
    }
  }

  class Ring {
    var next: map<int, int>
    var prev: map<int, int>
    ghost var list: seq<Handle>

    ghost predicate Valid()
      reads this
    {
      NoDup(list) && Forward(next, list) && Backward(prev, list)
    }

    constructor ()
      ensures Valid() && list == []
    {
      next, prev := map[HEAD := HEAD], map[HEAD := HEAD];
      list := [];
    }

    /** doublelink_insertbefore: `link` is the i-th node, or HEAD when i is past the last. */
    method InsertBefore(p: Handle, link: int, ghost i: nat)
      requires Valid() && p !in list && i <= |list| && link == NodeAt(list, i)
      modifies this
      ensures Valid() && list == InsertAt(old(list), i, p)
    {
      ForwardInsert(next, list, i, p);
      BackwardInsert(prev, list, i, p);
      InsertFacts(list, i, p);
      prev := prev[p := prev[link]];
      next := next[p := link];
      prev := prev[link := p];
      next := next[prev[p] := p];
      list := InsertAt(list, i, p);
    }

    /** doublelink_add */
    method Add(h: Handle, d: map<Handle, Desc>, o: Order)
      requires Valid() && h !in list
      modifies this
      ensures Valid() && list == Insert(old(list), d, o, h)
    {
      var tmp := next[HEAD];
      ghost var i := 0;
      while tmp != HEAD
        invariant i <= |list| && tmp == NodeAt(list, i) && Valid() && list == old(list)
        invariant forall j :: 0 <= j < i ==> Key(d, o, list[j]) <= Key(d, o, h)
        decreases |list| - i
      {
        if Key(d, o, h) < Key(d, o, tmp) {
          break;
        }
        assert i < |list| - 1 ==> next[list[i]] == list[i + 1];
        tmp := next[tmp];
        i := i + 1;
      }
      PosIs(list, d, o, h, i);
      InsertBefore(h, tmp, i);
    }

    /** doublelink_unlink: nothing happens to a descriptor that is in no list. */
    method Unlink(h: Handle)
      requires Valid() && h in list
      modifies this
      ensures Valid() && list == Remove(old(list), h) && h !in list
      ensures h in next && h in prev && next[h] == NULL && prev[h] == NULL
    {
      ghost var i := RemoveIsDrop(list, h);
      RemoveFacts(list, h);
      ForwardRemove(next, list, i);
      BackwardRemove(prev, list, i);
      var p, n := prev[h], next[h];
      if p != NULL && n != NULL {
        next := next[p := n];
        prev := prev[n := p];
        prev := prev[h := NULL];
        next := next[h := NULL];
      }
      list := Remove(list, h);
    }

    /** sortTimeout: h moves to the place its key in d asks for. */
    method Resort(h: Handle, d: map<Handle, Desc>, o: Order)
      requires Valid() && h in list
      modifies this
      ensures Valid() && list == Insert(Remove(old(list), h), d, o, h)
    {
      Unlink(h);
      Add(h, d, o);
    }
  }

  lemma {:induction false} PosIs(s: seq<Handle>, d: map<Handle, Desc>, o: Order, h: Handle, i: nat)
    requires i <= |s| && forall j :: 0 <= j < i ==> Key(d, o, s[j]) <= Key(d, o, h)
    requires i < |s| ==> Key(d, o, h) < Key(d, o, s[i])
    ensures Pos(s, d, o, Key(d, o, h)) == i
  {
  }
}
