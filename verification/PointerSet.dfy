/** The pointer set: an array of distinct keys in order of arrival, doubled as soon as it is full.  Every method is one
    mutex-held region. */
module PointerSet {
  import opened Ordered

  function Added<K(==)>(s: seq<K>, key: K): seq<K> {
    if key in s then s else s + [key]
  }

  /** The keys for which `out` says `want`, in their order. */
  function Filter<K>(s: seq<K>, out: K -> bool, want: bool): seq<K> {
    if s == [] then []
    else Filter(s[..|s| - 1], out, want) + if out(s[|s| - 1]) == want then [s[|s| - 1]] else []
  }

  lemma {:induction false} FilterFacts<K>(s: seq<K>, out: K -> bool, want: bool)
    ensures |Filter(s, out, want)| <= |s|
    ensures forall x :: x in Filter(s, out, want) <==> x in s && out(x) == want
    ensures NoDup(s) ==> NoDup(Filter(s, out, want))
  {
    if s != [] {
      var n := |s| - 1;
      assert s == s[..n] + [s[n]];
      FilterFacts(s[..n], out, want);
    }
  }

  /** What stays and what goes are together what there was: nothing is dropped, nothing is done twice. */
  lemma {:induction false} FilterSplits<K>(s: seq<K>, out: K -> bool)
    ensures multiset(Filter(s, out, false)) + multiset(Filter(s, out, true)) == multiset(s)
    ensures |Filter(s, out, false)| + |Filter(s, out, true)| == |s|
  {
    if s != [] {
      var n := |s| - 1;
      assert s == s[..n] + [s[n]];
      FilterSplits(s[..n], out);
    }
  }

  class Keys<K(==, 0)> {
    var data: array<K>
    var size: nat
    var count: nat

    /** There is always room for one more. */
    ghost predicate Valid()
      reads this, data
    {
      count < size == data.Length && NoDup(Contents())
    }

    ghost function Contents(): seq<K>
      reads this, data
    {
      if count <= data.Length then data[..count] else []
    }

    constructor (guess: int)
      ensures Valid() && fresh(data) && Contents() == []
    {
      size := if guess <= 0 then 100 else guess;
      data := new K[if guess <= 0 then 100 else guess];
      count := 0;
    }

    method Grow()
      requires size == data.Length && count <= size
      modifies this
      ensures data.Length == size == 2 * old(size) && fresh(data) && count == old(count)
      ensures Contents() == old(Contents())
    {
      var larger := new K[2 * size];
      for k := 0 to count
        modifies larger
        invariant larger[..k] == data[..k]
      {
        larger[k] := data[k];
      }
      data := larger;
      size := 2 * size;
    }

    method Add(key: K)
      requires Valid()
      modifies this, data
      ensures Valid() && (data == old(data) || fresh(data))
      ensures Contents() == Added(old(Contents()), key)
      ensures Contents() == if key in old(Contents()) then old(Contents()) else old(Contents()) + [key]
      ensures size == if count == old(count) + 1 == old(size) then 2 * old(size) else old(size)
    {
      for i := 0 to count
        invariant key !in data[..i]
      {
        if key == data[i] {
          return;
        }
      }
      data[count] := key;
      count := count + 1;
      assert Contents() == old(Contents()) + [key];
      if count == size {
        Grow();
      }
    }

    /** Takes out every key that `out` picks; `did` are the keys do_func was called with, in order. */
    method Remove(out: K -> bool) returns (did: seq<K>)
      requires Valid()
      modifies this`count, data
      ensures Valid()
      ensures Contents() == Filter(old(Contents()), out, false)
      ensures did == Filter(old(Contents()), out, true)
    {
      ghost var before := data[..count];
      var j := 0;
      did := [];
      for i := 0 to count
        modifies data
        invariant j <= i && forall k :: i <= k < count ==> data[k] == before[k]
        invariant data[..j] == Filter(before[..i], out, false)
        invariant did == Filter(before[..i], out, true)
      {
        assert before[..i + 1][..i] == before[..i];
        if out(data[i]) {
          did := did + [data[i]];
        } else {
          ghost var kept := data[..j];
          data[j] := data[i];
          assert data[..j + 1] == kept + [before[i]];
          j := j + 1;
        }
      }
      assert before[..count] == before;
      FilterFacts(before, out, false);
      count := j;
    }
  }
}
