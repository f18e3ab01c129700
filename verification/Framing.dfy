/** How a byte stream falls into packages: a header of fixed size that tells the size of the body that follows.  The
    same framing is used on the wire and in the package file. */
module Framing {

  newtype Byte = x: int | 0 <= x < 256

  /** sizeof(EGGNETPACKAGE), and eSize as read from a header. */
  datatype Format = Format(header: nat, body: seq<Byte> -> nat)

  function Size(f: Format, s: seq<Byte>): nat
    requires f.header <= |s|
  {
    f.header + f.body(s[..f.header])
  }

  /** s begins with a whole package. */
  predicate Whole(f: Format, s: seq<Byte>) {
    f.header <= |s| && Size(f, s) <= |s|
  }

  predicate IsPackage(f: Format, p: seq<Byte>) {
    f.header <= |p| && Size(f, p) == |p|
  }

  /** The packages that s consists of, as far as they are whole. */
  function Packages(f: Format, s: seq<Byte>): seq<seq<Byte>>
    requires 0 < f.header
    decreases |s|
  {
    if Whole(f, s) then [s[..Size(f, s)]] + Packages(f, s[Size(f, s)..]) else []
  }

  /** What is left after them. */
  function Rest(f: Format, s: seq<Byte>): seq<Byte>
    requires 0 < f.header
    decreases |s|
  {
    if Whole(f, s) then Rest(f, s[Size(f, s)..]) else s
  }

  function Flat(ps: seq<seq<Byte>>): seq<Byte> {
    if ps == [] then [] else Flat(ps[..|ps| - 1]) + ps[|ps| - 1]
  }

  ghost predicate AllPackages(f: Format, ps: seq<seq<Byte>>) {
    forall i :: 0 <= i < |ps| ==> IsPackage(f, ps[i])
  }

  lemma FlatSnoc(ps: seq<seq<Byte>>, p: seq<Byte>)
    ensures Flat(ps + [p]) == Flat(ps) + p
  {
    assert (ps + [p])[..|ps|] == ps;
  }

  lemma {:induction false} FlatCons(p: seq<Byte>, ps: seq<seq<Byte>>)
    ensures Flat([p] + ps) == p + Flat(ps)
  {
    if ps == [] {
      assert [p] + ps == [] + [p];
      FlatSnoc([], p);
    } else {
      var n := |ps| - 1;
      assert ([p] + ps)[..n + 1] == [p] + ps[..n];
      FlatCons(p, ps[..n]);
    }
  }

  /** A package is recognised whatever follows it. */
  lemma HeadPackage(f: Format, p: seq<Byte>, s: seq<Byte>)
    requires 0 < f.header && IsPackage(f, p)
    ensures Whole(f, p + s) && Size(f, p + s) == |p|
    ensures Packages(f, p + s) == [p] + Packages(f, s) && Rest(f, p + s) == Rest(f, s)
  {
    assert (p + s)[..f.header] == p[..f.header];
    assert (p + s)[..|p|] == p && (p + s)[|p|..] == s;
  }

  lemma Reassociate(a: seq<Byte>, b: seq<Byte>, c: seq<Byte>)
    ensures (a + b) + c == a + (b + c)
  {
  }

  /** Framing loses nothing and reorders nothing. */
  lemma {:induction false} FramingLosesNothing(f: Format, s: seq<Byte>)
    requires 0 < f.header
    ensures Flat(Packages(f, s)) + Rest(f, s) == s
    decreases |s|
  {
    if Whole(f, s) {
      var p, t := s[..Size(f, s)], s[Size(f, s)..];
      FramingLosesNothing(f, t);
      FlatCons(p, Packages(f, t));
      Reassociate(p, Flat(Packages(f, t)), Rest(f, t));
      assert s == p + t;
    }
  }

  /** It takes out whole packages, and stops only where none is left. */
  lemma {:induction false} FramingIsSound(f: Format, s: seq<Byte>)
    requires 0 < f.header
    ensures AllPackages(f, Packages(f, s)) && !Whole(f, Rest(f, s))
    decreases |s|
  {
    if Whole(f, s) {
      FramingIsSound(f, s[Size(f, s)..]);
      assert s[..Size(f, s)][..f.header] == s[..f.header];
    }
  }

  lemma OneMoreInFront(f: Format, p: seq<Byte>, ps: seq<seq<Byte>>, rest: seq<Byte>)
    requires 0 < f.header && IsPackage(f, p)
    requires Packages(f, Flat(ps) + rest) == ps && Rest(f, Flat(ps) + rest) == rest
    ensures Packages(f, Flat([p] + ps) + rest) == [p] + ps && Rest(f, Flat([p] + ps) + rest) == rest
  {
    FlatCons(p, ps);
    Reassociate(p, Flat(ps), rest);
    HeadPackage(f, p, Flat(ps) + rest);
  }

  /** There is only one way to fall into packages: it does not depend on where the stream was cut on its way. */
  lemma {:induction false} FramingIsUnique(f: Format, ps: seq<seq<Byte>>, rest: seq<Byte>)
    requires 0 < f.header && AllPackages(f, ps) && !Whole(f, rest)
    ensures Packages(f, Flat(ps) + rest) == ps && Rest(f, Flat(ps) + rest) == rest
    decreases |ps|
  {
    if ps == [] {
      assert Flat(ps) + rest == rest;
    } else {
      FramingIsUnique(f, ps[1..], rest);
      OneMoreInFront(f, ps[0], ps[1..], rest);
      assert ps == [ps[0]] + ps[1..];
    }
  }

  /** Whatever has been framed stays framed when more arrives. */
  lemma FramingGrows(f: Format, s: seq<Byte>, t: seq<Byte>)
    requires 0 < f.header
    ensures Packages(f, s) <= Packages(f, s + t)
    ensures Packages(f, s + t) == Packages(f, s) + Packages(f, Rest(f, s) + t)
    ensures Rest(f, s + t) == Rest(f, Rest(f, s) + t)
  {
    var u := Rest(f, s) + t;
    FramingIsSound(f, s);
    FramingIsSound(f, u);
    FramingLosesNothing(f, s);
    FramingLosesNothing(f, u);
    var a, b := Packages(f, s), Packages(f, u);
    FlatConcat(a, b);
    assert Flat(a + b) + Rest(f, u) == s + t by {
      Reassociate(Flat(a), Rest(f, s), t);
      Reassociate(Flat(a), Flat(b), Rest(f, u));
    }
    FramingIsUnique(f, a + b, Rest(f, u));
  }

  lemma {:induction false} FlatConcat(a: seq<seq<Byte>>, b: seq<seq<Byte>>)
    ensures Flat(a + b) == Flat(a) + Flat(b)
    decreases |b|
  {
    if b == [] {
      assert a + b == a;
    } else {
      var n := |b| - 1;
      assert (a + b)[..|a| + n] == a + b[..n];
      FlatConcat(a, b[..n]);
    }
  }

  /** The cut falls within p, which is therefore not there. */
  lemma CutWithin(f: Format, ps: seq<seq<Byte>>, p: seq<Byte>, n: nat)
    requires 0 < f.header && AllPackages(f, ps) && IsPackage(f, p)
    requires |Flat(ps)| <= n < |Flat(ps)| + |p|
    ensures Packages(f, (Flat(ps) + p)[..n]) == ps
  {
    var cut := p[..n - |Flat(ps)|];
    assert (Flat(ps) + p)[..n] == Flat(ps) + cut;
    assert !Whole(f, cut) by {
      assert f.header <= |cut| ==> cut[..f.header] == p[..f.header];
    }
    FramingIsUnique(f, ps, cut);
  }

  /** A stream of packages cut short at byte n frames to the longest run of them that fits. */
  lemma {:induction false} CutShort(f: Format, ps: seq<seq<Byte>>, n: nat) returns (k: nat)
    requires 0 < f.header && AllPackages(f, ps) && n <= |Flat(ps)|
    ensures k <= |ps| && Packages(f, Flat(ps)[..n]) == ps[..k]
    ensures |Flat(ps[..k])| <= n && (k < |ps| ==> n < |Flat(ps[..k + 1])|)
    decreases |ps|
  {
    var m := |ps| - 1;
    if n == |Flat(ps)| {
      k := |ps|;
      assert ps[..k] == ps && Flat(ps)[..n] == Flat(ps) + [];
      FramingIsUnique(f, ps, []);
    } else if |Flat(ps[..m])| <= n {
      k := m;
      assert ps[..m + 1] == ps;
      CutWithin(f, ps[..m], ps[m], n);
    } else {
      assert Flat(ps)[..n] == Flat(ps[..m])[..n];
      k := CutShort(f, ps[..m], n);
      assert ps[..m][..k] == ps[..k] && (k < m ==> ps[..m][..k + 1] == ps[..k + 1]);
    }
  }
}
