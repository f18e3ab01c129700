/** The package file of a mem-server: packages are added one after the other and fetched back by the exporter. */
module PackFile {
  import opened Ordered
  import opened Framing

  /** write at a file position; a position behind the end leaves a hole of zeros. */
  function WriteAt(s: seq<Byte>, at: nat, p: seq<Byte>): seq<Byte> {
    if at <= |s| then s[..at] + p + (if at + |p| <= |s| then s[at + |p|..] else [])
    else s + seq(at - |s|, i => 0) + p
  }

  /** Byte by byte: what is written where it is written, zeros in a hole, and everything else as it was. */
  lemma WriteAtExactly(s: seq<Byte>, at: nat, p: seq<Byte>, i: nat)
    requires p != []
    ensures |WriteAt(s, at, p)| == if at + |p| <= |s| then |s| else at + |p|
    ensures i < |WriteAt(s, at, p)| ==>
              WriteAt(s, at, p)[i] == if at <= i < at + |p| then p[i - at] else if i < |s| then s[i] else 0
  {
  }

  /** What is left for a handle to fetch. */
  function Ahead(s: seq<Byte>, off: nat, fsize: nat): seq<Byte> {
    if off <= fsize <= |s| then s[off..fsize] else []
  }

  /** A fetch on what is left: the whole package at its beginning, or nothing; and what is left then, which is without
      the header, if there was one, even when nothing was found. */
  function Fetched(f: Format, s: seq<Byte>): (Option<seq<Byte>>, seq<Byte>) {
    if Whole(f, s) then (Some(s[..Size(f, s)]), s[Size(f, s)..])
    else (None, if f.header <= |s| then s[f.header..] else s)
  }

  function Min(a: int, b: int): int { if a <= b then a else b }

  /** read(2) of n bytes. */
  function ReadAt(s: seq<Byte>, at: nat, n: nat): seq<Byte> {
    if at <= |s| then s[at..Min(at + n, |s|)] else []
  }

  function Padded(s: seq<Byte>, n: nat): seq<Byte> {
    if n <= |s| then s[..n] else s + seq(n - |s|, i => 0)
  }

  /** A read that does not go over the end is the bytes that are there. */
  lemma WholeRead(s: seq<Byte>, at: nat, n: nat)
    requires at + n <= |s|
    ensures ReadAt(s, at, n) == s[at..at + n] == Padded(ReadAt(s, at, n), n)
  {
  }

  lemma NoBody(f: Format, s: seq<Byte>, off: nat, fsize: nat)
    requires off + f.header <= fsize <= |s| && fsize < off + f.header + f.body(s[off..off + f.header])
    ensures Fetched(f, Ahead(s, off, fsize)) == (None, Ahead(s, off + f.header, fsize))
  {
    AheadAt(s, off, fsize, f.header);
  }

  lemma WithBody(f: Format, s: seq<Byte>, off: nat, fsize: nat)
    requires off + f.header <= fsize <= |s|
    requires var size := f.body(s[off..off + f.header]); off + f.header + size <= fsize
    ensures var b := off + f.header;
            var e := b + f.body(s[off..b]);
            Fetched(f, Ahead(s, off, fsize)) == (Some(s[off..b] + s[b..e]), Ahead(s, e, fsize))
  {
    var b := off + f.header;
    var e := b + f.body(s[off..b]);
    AheadAt(s, off, fsize, f.header);
    AheadAt(s, off, fsize, e - off);
    Joined(s, off, b, e);
  }

  lemma AheadAt(s: seq<Byte>, off: nat, fsize: nat, n: nat)
    requires off + n <= fsize <= |s|
    ensures n <= |Ahead(s, off, fsize)| == fsize - off
    ensures Ahead(s, off, fsize)[..n] == s[off..off + n] && Ahead(s, off, fsize)[n..] == Ahead(s, off + n, fsize)
  {
  }

  lemma Joined(s: seq<Byte>, a: nat, b: nat, e: nat)
    requires a <= b <= e <= |s|
    ensures s[a..b] + s[b..e] == s[a..e]
  {
  }

  /** One more package in front of what is still to come. */
  lemma OneMore(ps: seq<seq<Byte>>, p: seq<Byte>, f: Format, s: seq<Byte>)
    requires 0 < f.header
    ensures ps + ([p] + Packages(f, s)) ==
            match Fetched(f, s).0
            case None => ps + [p]
            case Some(next) => (ps + [p]) + ([next] + Packages(f, Fetched(f, s).1))
  {
  }

  class File {
    var bytes: seq<Byte>
    constructor ()
      ensures bytes == []
    {
      bytes := [];
    }
  }

  class PackBuf {
    const format: Format
    const file: File
    var off: nat
    var pos: nat   // the position that the kernel keeps
    var fsize: nat

    /** eggRWSPackBuf_new: the size is looked up once, and the position is the beginning. */
    constructor (format: Format, file: File)
      ensures this.format == format && this.file == file && fsize == |file.bytes| && off == 0 && Valid()
    {
      this.format, this.file, off, pos, fsize := format, file, 0, 0, |file.bytes|;
    }

    /** The file is at least as long as when the handle looked, and the handle reads where it thinks it does. */
    ghost predicate Valid()
      reads this, file
    {
      pos == off && fsize <= |file.bytes|
    }

    ghost function Left(): seq<Byte>
      reads this, file
    {
      Ahead(file.bytes, off, fsize)
    }

    method Add(p: seq<Byte>)
      modifies this`off, this`pos, this`fsize, file
      ensures file.bytes == WriteAt(old(file.bytes), old(pos), p)
      ensures off == old(off) + |p| && pos == old(pos) + |p| && fsize == if off > old(fsize) then off else old(fsize)
      ensures old(Valid()) ==> Valid()
      ensures old(pos) == old(|file.bytes|) ==> file.bytes == old(file.bytes) + p && pos == |file.bytes|
    {
      file.bytes := WriteAt(file.bytes, pos, p);
      off := off + |p|;
      pos := pos + |p|;
      if off > fsize {
        fsize := off;
      }
    }

    /** What a fetch does to a file that has been truncated behind the handle's back is left to `memory`, what the bytes
        are that a short read does not fill; on a file that has not, it is Fetched. */
    method Fetch(memory: nat -> Byte) returns (r: Option<seq<Byte>>)
      modifies this`off, this`pos
      ensures old(fsize < off + format.header) ==> r == None && off == old(off) && pos == old(pos)
      ensures var header := Padded(ReadAt(file.bytes, old(pos), format.header), format.header);
              var size := format.body(header);
              old(fsize >= off + format.header) ==>
                && (r.Some? <==> fsize >= old(off) + format.header + size)
                && off == old(off) + format.header + (if r.Some? then size else 0)
                && (r.Some? ==> |r.value| == format.header + size && header <= r.value)
      ensures old(Valid()) && old(off) <= fsize ==>
                Valid() && off <= fsize && (r, Left()) == Fetched(format, old(Left()))
      ensures old(Valid()) && old(off) > fsize ==> r == None && off == old(off) && Valid()
    {
      ghost var intact := Valid() && off <= fsize;
      if fsize < off + format.header {
        return None;
      }
      if intact { WholeRead(file.bytes, off, format.header); }
      var got := ReadAt(file.bytes, pos, format.header);
      var header := Padded(got, format.header);
      pos := pos + |got|;
      var size := format.body(header);
      off := off + format.header;
      if fsize < off + size {
        if intact { NoBody(format, file.bytes, old(off), fsize); }
        return None;
      }
      if intact {
        WholeRead(file.bytes, off, size);
        WithBody(format, file.bytes, old(off), fsize);
      }
      var read := ReadAt(file.bytes, pos, size);
      pos := pos + |read|;
      off := off + size;
      var body := read + seq(size - |read|, i requires 0 <= i => memory(i));
      assert intact ==> body == read;
      r := Some(header + body);
    }

    /** The exporter: fetches until there is nothing, and gives each package to the writer of the baker's index. */
    method Replay(memory: nat -> Byte) returns (ps: seq<seq<Byte>>)
      requires Valid() && off <= fsize && 0 < format.header
      modifies this`off, this`pos
      ensures ps == Packages(format, old(Left()))
    {
      ps := [];
      ghost var left := Left();
      var r := Fetch(memory);
      while r.Some?
        invariant Valid() && off <= fsize
        invariant Packages(format, left) == if r.Some? then ps + ([r.value] + Packages(format, Left())) else ps
        decreases r.Some?, fsize - off
      {
        OneMore(ps, r.value, format, Left());
        ps := ps + [r.value];
        r := Fetch(memory);
      }
    }
  }

  // ----- what the file promises

  /** The file after adding packages through one fresh handle on an empty file. */
  function Saved(ps: seq<seq<Byte>>): seq<Byte> {
    if ps == [] then [] else WriteAt(Saved(ps[..|ps| - 1]), |Saved(ps[..|ps| - 1])|, ps[|ps| - 1])
  }

  lemma {:induction false} SavedIsFlat(ps: seq<seq<Byte>>)
    ensures Saved(ps) == Flat(ps)
  {
    if ps != [] {
      SavedIsFlat(ps[..|ps| - 1]);
    }
  }

  /** Replaying a file cut short at any byte gives exactly the longest run of whole packages that is still there;
      cut nowhere, all of them. */
  lemma RoundTrip(f: Format, ps: seq<seq<Byte>>, n: nat) returns (k: nat)
    requires 0 < f.header && AllPackages(f, ps) && n <= |Saved(ps)|
    ensures k <= |ps| && Packages(f, Ahead(Saved(ps)[..n], 0, n)) == ps[..k]
    ensures |Saved(ps[..k])| <= n && (k < |ps| ==> n < |Saved(ps[..k + 1])|)
    ensures n == |Saved(ps)| ==> Packages(f, Ahead(Saved(ps), 0, n)) == ps
  {
    SavedIsFlat(ps);
    k := CutShort(f, ps, n);
    SavedIsFlat(ps[..k]);
    if k < |ps| { SavedIsFlat(ps[..k + 1]); }
    assert Ahead(Saved(ps)[..n], 0, n) == Flat(ps)[..n];
    if n == |Saved(ps)| {
      assert Ahead(Saved(ps), 0, n) == Flat(ps) + [];
      FramingIsUnique(f, ps, []);
    }
  }

  /** A package added through a handle keeps what the file held before just when it is written at or behind the end,
      or happens to agree with what it is written over. */
  lemma AddKeepsIff(s: seq<Byte>, at: nat, p: seq<Byte>)
    ensures s <= WriteAt(s, at, p) <==> at >= |s| || p <= s[at..] || s[at..] <= p
  {
    var t := WriteAt(s, at, p);
    if at < |s| {
      var m := if |p| <= |s| - at then |p| else |s| - at;
      assert t[at..at + m] == p[..m];
      assert s[at..][..m] == s[at..at + m];
      if s <= t {
        assert s[at..at + m] == t[at..at + m];
      }
      if p <= s[at..] || s[at..] <= p {
        assert p[..m] == s[at..][..m];
        assert forall i :: 0 <= i < |s| ==> s[i] == t[i] by {
          forall i | at <= i < at + m ensures s[i] == t[i] {
            assert s[i] == s[at..][..m][i - at];
          }
        }
      }
    }
  }

  /** A fresh handle is at the beginning, so the first package it adds to a file that is not empty replaces the
      beginning of what is there. */
  lemma FreshHandleOverwrites(s: seq<Byte>, p: seq<Byte>)
    ensures p <= WriteAt(s, 0, p)
    ensures |p| <= |s| ==> |WriteAt(s, 0, p)| == |s|
  {
  }

  /** What is left after n fetches. */
  function LeftAfter(f: Format, s: seq<Byte>, n: nat): seq<Byte> {
    if n == 0 then s else Fetched(f, LeftAfter(f, s, n - 1)).1
  }

  lemma {:induction false} LeftAfterFirst(f: Format, s: seq<Byte>, n: nat)
    ensures LeftAfter(f, Fetched(f, s).1, n) == LeftAfter(f, s, n + 1)
  {
    if n > 0 {
      LeftAfterFirst(f, s, n - 1);
    }
  }

  /** No package begins at the beginning, nor one header further, nor two headers further, and so on. */
  predicate NoneAtHeaders(f: Format, s: seq<Byte>)
    requires 0 < f.header
    decreases |s|
  {
    !Whole(f, s) && (f.header <= |s| ==> NoneAtHeaders(f, s[f.header..]))
  }

  lemma {:induction false} NoneFound(f: Format, s: seq<Byte>, n: nat)
    requires 0 < f.header && NoneAtHeaders(f, s)
    ensures NoneAtHeaders(f, LeftAfter(f, s, n))
  {
    if n > 0 {
      NoneFound(f, s, n - 1);
    }
  }

  lemma {:induction false} SomeFound(f: Format, s: seq<Byte>) returns (n: nat)
    requires 0 < f.header && !NoneAtHeaders(f, s)
    ensures Fetched(f, LeftAfter(f, s, n)).0.Some?
    decreases |s|
  {
    n := 0;
    if !Whole(f, s) {
      var k := SomeFound(f, s[f.header..]);
      LeftAfterFirst(f, s, k);
      n := k + 1;
    }
  }

  /** Nothing is found by any number of fetches if and only if no package begins at a whole number of headers from here:
      a fetch that found nothing has skipped a header and the next one takes what follows, part of a body, for one. */
  lemma NothingIsFinalIff(f: Format, s: seq<Byte>)
    requires 0 < f.header
    ensures (forall n: nat :: Fetched(f, LeftAfter(f, s, n)).0 == None) <==> NoneAtHeaders(f, s)
  {
    if NoneAtHeaders(f, s) {
      forall n: nat ensures Fetched(f, LeftAfter(f, s, n)).0 == None { NoneFound(f, s, n); }
    } else {
      var n := SomeFound(f, s);
    }
  }

  /** With one-byte headers that tell the size, the file 5 0 has no whole package at its beginning, and the next fetch
      takes the 0 for one. */
  lemma NothingIsNotFinal()
    ensures var f := Format(1, h => if h != [] then h[0] as nat else 0);
            Fetched(f, [5, 0]).0 == None && !NoneAtHeaders(f, [5, 0])
  {
    var f := Format(1, h => if h != [] then h[0] as nat else 0);
    assert [5, 0][..1] == [5] && [5, 0][1..] == [0] && [0][..1] == [0];
  }
}
