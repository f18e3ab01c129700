/** The growing circular queue that carries sockets, jobs and client requests between threads.  Every method is one
    mutex-held region; waiting for the queue to be non-empty is a precondition of Pop. */
module CircularQueue {
  import opened Ordered

  /** What a buffer holds from `head` round to `tail`; when they are equal it holds nothing, never everything. */
  function Window<T>(d: seq<T>, head: nat, tail: nat): seq<T>
    requires head < |d| && tail < |d|
  {
    if head <= tail then d[head..tail] else d[head..] + d[..tail]
  }

  function Wrap(i: nat, size: nat): (j: nat)
    requires i < size
    ensures j < size
  {
    if i + 1 == size then 0 else i + 1
  }

  method Next(i: nat, size: nat) returns (j: nat)
    requires i < size
    ensures j == Wrap(i, size)
  {
    j := (i + 1) % size;
  }

  /** Writing at the tail appends, as long as the tail does not catch up with the head. */
  lemma PushWindow<T>(d: seq<T>, head: nat, tail: nat, x: T)
    requires head < |d| && tail < |d| && Wrap(tail, |d|) != head
    ensures Window(d[tail := x], head, Wrap(tail, |d|)) == Window(d, head, tail) + [x]
    ensures |Window(d[tail := x], head, Wrap(tail, |d|))| == |Window(d, head, tail)| + 1 < |d|
  {
    var e := d[tail := x];
    if tail + 1 == |d| {
      assert e[head..] == d[head..tail] + [x];
    } else if head <= tail {
      assert e[head..tail + 1] == d[head..tail] + [x];
    } else {
      assert e[..tail + 1] == d[..tail] + [x] && e[head..] == d[head..];
    }
  }

  /** When the tail catches up, the queue is full.  Copying what lies before the head behind the old end of a buffer
      of twice the size, and putting the tail there, keeps every element and its order. */
  lemma GrowWindow<T>(d: seq<T>, head: nat, tail: nat, x: T, g: seq<T>)
    requires head < |d| && tail < |d| && Wrap(tail, |d|) == head && |g| == 2 * |d|
    requires g[head..|d|] == d[tail := x][head..] && g[|d|..|d| + head] == d[tail := x][..head]
    ensures Window(g, head, |d| + head) == Window(d, head, tail) + [x]
    ensures |Window(g, head, |d| + head)| == |Window(d, head, tail)| + 1 == |d|
  {
    var e := d[tail := x];
    assert g[head..|d| + head] == g[head..|d|] + g[|d|..|d| + head];
    if head == 0 {
      assert e[0..] + e[..0] == d[0..tail] + [x];
    } else {
      assert tail == head - 1;
      assert e[..head] == d[..tail] + [x] && e[head..] == d[head..];
    }
  }

  lemma PopWindow<T>(d: seq<T>, head: nat, tail: nat)
    requires head < |d| && tail < |d| && head != tail
    ensures Window(d, head, tail) == [d[head]] + Window(d, Wrap(head, |d|), tail)
    ensures |Window(d, head, tail)| == 1 + |Window(d, Wrap(head, |d|), tail)|
  {
    if head < tail {
      assert d[head..tail] == [d[head]] + d[head + 1..tail];
    } else {
      assert d[head..] == [d[head]] + d[head + 1..];
    }
  }

  class Queue<T(0)> {
    var data: array<T>
    var size: nat
    var head: nat
    var tail: nat
    var count: int

    ghost predicate Valid()
      reads this, data
    {
      0 < size == data.Length && head < size && tail < size && count == |Contents()|
    }

    ghost function Contents(): seq<T>
      reads this, data
    {
      if head < data.Length && tail < data.Length then Window(data[..], head, tail) else []
    }

    constructor (guess: int)
      ensures Valid() && fresh(data) && Contents() == []
      ensures size == if guess <= 0 then 100 else guess
    {
      size := if guess <= 0 then 100 else guess;
      data := new T[if guess <= 0 then 100 else guess];
      head, tail, count := 0, 0, 0;
    }

    /** The enlarged buffer; what was before the head is now behind the old end. */
    method Grow()
      requires size == data.Length && head < size
      modifies this, data
      ensures data.Length == size == 2 * old(size) && fresh(data)
      ensures head == old(head) && tail == old(size) + head && count == old(count)
      ensures data[..old(size)] == old(data[..]) && data[old(size)..tail] == old(data[..])[..head]
    {
      ghost var before := data[..];
      var newsize := 2 * size;
      var larger := new T[newsize];
      for k := 0 to size
        modifies larger
        invariant forall i :: 0 <= i < k ==> larger[i] == before[i]
      {
        larger[k] := data[k];
      }
      data := larger;
      var j := size;
      for i := 0 to head
        modifies larger
        invariant j == size + i && data == larger && larger.Length == newsize
        invariant forall k :: 0 <= k < size ==> larger[k] == before[k]
        invariant forall k :: size <= k < j ==> larger[k] == before[k - size]
      {
        data[j] := data[i];
        j := Next(j, newsize);
      }
      tail := j;
      size := newsize;
      assert data[..|before|] == before && data[|before|..tail] == before[..head];
    }

    method Push(x: T)
      requires Valid()
      modifies this, data
      ensures Valid() && (data == old(data) || fresh(data))
      ensures Contents() == old(Contents()) + [x]
      ensures size == if |Contents()| == old(size) then 2 * old(size) else old(size)
    {
      ghost var before := data[..];
      count := count + 1;
      data[tail] := x;
      assert data[..] == before[tail := x];
      tail := Next(tail, size);
      if tail == head {
        Grow();
        assert data[head..old(size)] == data[..old(size)][head..];
        GrowWindow(before, head, old(tail), x, data[..]);
      } else {
        PushWindow(before, head, old(tail), x);
      }
    }

    method Pop() returns (x: T)
      requires Valid() && Contents() != []
      modifies this`head, this`count
      ensures Valid() && [x] + Contents() == old(Contents())
    {
      ghost var was, from := data[..], head;
      assert head != tail && Contents() == Window(was, from, tail);
      PopWindow(was, from, tail);
      x := data[head];
      count := count - 1;
      head := Next(head, size);
      assert data[..] == was && head == Wrap(from, |was|);
      assert Contents() == Window(was, head, tail);
    }

    method PopNoWait() returns (r: Option<T>)
      requires Valid()
      modifies this`head, this`count
      ensures Valid()
      ensures match r
              case None => old(Contents()) == [] && Contents() == []
              case Some(x) => [x] + Contents() == old(Contents())
    {
      if head == tail {
        r := None;
      } else {
        var x := Pop();
        r := Some(x);
      }
    }

    method Look() returns (r: Option<T>)
      requires Valid()
      ensures match r case None => Contents() == [] case Some(x) => Contents() != [] && x == Contents()[0]
    {
      if head == tail {
        r := None;
      } else {
        PopWindow(data[..], head, tail);
        r := Some(data[head]);
      }
    }

    method Count() returns (n: int)
      requires Valid()
      ensures n == |Contents()| < size
    {
      n := count;
    }
  }
}
