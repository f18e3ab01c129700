/** Sequences without duplicates: inserting, removing, and summing weights over them. */
module Ordered {

  datatype Option<+T> = None | Some(value: T)

  ghost predicate NoDup<H>(s: seq<H>) {
    forall i, j :: 0 <= i < j < |s| ==> s[i] != s[j]
  }

  function InsertAt<H>(s: seq<H>, i: nat, h: H): seq<H>
    requires i <= |s|
  {
    s[..i] + [h] + s[i..]
  }

  /** doublelink_unlink */
  function Remove<H(==)>(s: seq<H>, h: H): seq<H> {
    if s == [] then [] else if s[0] == h then s[1..] else [s[0]] + Remove(s[1..], h)
  }

  lemma {:induction false} RemoveIsDrop<H>(s: seq<H>, h: H) returns (i: nat)
    requires h in s && NoDup(s)
    ensures i < |s| && s[i] == h && Remove(s, h) == s[..i] + s[i + 1..]
  {
    if s[0] == h {
      i := 0;
    } else {
      var j := RemoveIsDrop(s[1..], h);
      i := j + 1;
      assert s[..i] == [s[0]] + s[1..][..j];
    }
  }

  lemma RemoveFacts<H>(s: seq<H>, h: H)
    requires h in s && NoDup(s)
    ensures NoDup(Remove(s, h)) && |Remove(s, h)| == |s| - 1
    ensures forall x :: x in Remove(s, h) <==> x in s && x != h
  {
    var i := RemoveIsDrop(s, h);
    var t := s[..i] + s[i + 1..];
    forall x | x in s && x != h ensures x in t {
      var j :| 0 <= j < |s| && s[j] == x;
      assert t[if j < i then j else j - 1] == x;
    }
  }

  lemma InsertFacts<H>(s: seq<H>, i: nat, h: H)
    requires h !in s && NoDup(s) && i <= |s|
    ensures NoDup(InsertAt(s, i, h)) && |InsertAt(s, i, h)| == |s| + 1
    ensures forall x :: x in InsertAt(s, i, h) <==> x in s || x == h
  {
    var t := InsertAt(s, i, h);
    assert t[i] == h;
    forall x | x in s ensures x in t {
      var j :| 0 <= j < |s| && s[j] == x;
      assert t[if j < i then j else j + 1] == x;
    }
  }

  // ----- sums

  function Weight<H(==)>(w: map<H, nat>, h: H): nat {
    if h in w then w[h] else 0
  }

  function Total<H(==)>(s: seq<H>, w: map<H, nat>): nat {
    if s == [] then 0 else Weight(w, s[0]) + Total(s[1..], w)
  }

  lemma {:induction false} TotalSplit<H>(s: seq<H>, i: nat, h: H, w: map<H, nat>)
    requires i <= |s|
    ensures Total(InsertAt(s, i, h), w) == Total(s, w) + Weight(w, h)
  {
    if i == 0 {
      assert InsertAt(s, 0, h) == [h] + s;
    } else {
      assert InsertAt(s, i, h) == [s[0]] + InsertAt(s[1..], i - 1, h);
      TotalSplit(s[1..], i - 1, h, w);
    }
  }

  lemma {:induction false} TotalRemove<H>(s: seq<H>, h: H, w: map<H, nat>)
    requires h in s
    ensures Total(Remove(s, h), w) + Weight(w, h) == Total(s, w)
  {
    if s[0] != h {
      TotalRemove(s[1..], h, w);
    }
  }

  lemma {:induction false} TotalLess<H>(s: seq<H>, w: map<H, nat>, w': map<H, nat>)
    requires forall h :: h in s ==> Weight(w', h) <= Weight(w, h)
    ensures Total(s, w') <= Total(s, w)
    ensures (exists h :: h in s && Weight(w', h) < Weight(w, h)) ==> Total(s, w') < Total(s, w)
  {
    if s != [] {
      TotalLess(s[1..], w, w');
    }
  }
}
