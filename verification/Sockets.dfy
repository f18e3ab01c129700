/** Who holds an accepted socket.  The main thread keeps the waiting ones in a set, scans the set three times a pass
    and hands the readable ones to the worker threads through the circular queue; a worker serves a socket until it
    would block, then puts it back, or closes it.  A scan holds the set's mutex, so a worker that wants to put a
    socket back waits for the end of the scan, but workers take from the queue while the scan goes on. */
module Sockets {
  import opened Ordered
  import opened PointerSet

  type Sock = nat

  const CLIENTFD_MAX := 800

  datatype Scan = Resting | Scanning(rest: seq<Sock>, closing: bool)

  /** During a scan `datafds` is what has been kept so far and `rest` what has not been looked at.
      `accepts` and `closes` remember every accept and every close. */
  datatype State = State(datafds: seq<Sock>, scan: Scan, queue: seq<Sock>, hands: seq<Option<Sock>>,
                         accepts: multiset<Sock>, closes: multiset<Sock>)

  datatype Step =
    | AcceptStep(x: Sock)
    | BeginScanStep(closing: bool)
    | KeepStep
    | TakeOutStep
    | EndScanStep
    | PopStep(w: nat)
    | PutBackStep(w: nat)
    | CloseStep(w: nat)

  function One(b: bool): nat { if b then 1 else 0 }

  /** How often x is in a list. */
  function In(l: seq<Sock>, x: Sock): nat {
    if l == [] then 0 else One(l[0] == x) + In(l[1..], x)
  }

  /** How many workers serve x. */
  function Serving(hands: seq<Option<Sock>>, x: Sock): nat {
    if hands == [] then 0 else One(hands[0] == Some(x)) + Serving(hands[1..], x)
  }

  function Unscanned(scan: Scan): seq<Sock> {
    match scan case Resting => [] case Scanning(rest, _) => rest
  }

  /** In how many places x is. */
  function Places(s: State, x: Sock): nat {
    In(s.datafds, x) + In(Unscanned(s.scan), x) + In(s.queue, x) + Serving(s.hands, x)
  }

  /** A socket the kernel or the allocator hands out is one that nobody has; it may have been closed before. */
  predicate Enabled(s: State, st: Step) {
    match st
    case AcceptStep(x) => s.scan.Resting? && |s.datafds| < CLIENTFD_MAX && Places(s, x) == 0
    case BeginScanStep(_) => s.scan.Resting?
    case KeepStep => s.scan.Scanning? && s.scan.rest != []
    case TakeOutStep => s.scan.Scanning? && s.scan.rest != []
    case EndScanStep => s.scan.Scanning? && s.scan.rest == []
    case PopStep(w) => w < |s.hands| && s.hands[w].None? && s.queue != []
    case PutBackStep(w) => w < |s.hands| && s.hands[w].Some? && s.scan.Resting?
    case CloseStep(w) => w < |s.hands| && s.hands[w].Some?
  }

  function Apply(s: State, st: Step): State
    requires Enabled(s, st)
  {
    match st
    case AcceptStep(x) => s.(datafds := Added(s.datafds, x), accepts := s.accepts + multiset{x})
    case BeginScanStep(closing) => s.(datafds := [], scan := Scanning(s.datafds, closing))
    case KeepStep =>
      s.(datafds := s.datafds + [s.scan.rest[0]], scan := s.scan.(rest := s.scan.rest[1..]))
    case TakeOutStep =>
      var x := s.scan.rest[0];
      var s' := s.(scan := s.scan.(rest := s.scan.rest[1..]));
      if s.scan.closing then s'.(closes := s.closes + multiset{x}) else s'.(queue := s.queue + [x])
    case EndScanStep => s.(scan := Resting)
    case PopStep(w) => s.(queue := s.queue[1..], hands := s.hands[w := Some(s.queue[0])])
    case PutBackStep(w) => s.(datafds := Added(s.datafds, s.hands[w].value), hands := s.hands[w := None])
    case CloseStep(w) => s.(closes := s.closes + multiset{s.hands[w].value}, hands := s.hands[w := None])
  }

  // ----- the invariant

  /** Every socket is in at most one place, and is there exactly if it was accepted once more than closed. */
  ghost predicate Inv(s: State) {
    forall x: Sock :: Places(s, x) <= 1 && s.accepts[x] == s.closes[x] + Places(s, x)
  }

  lemma {:induction false} InAppend(l: seq<Sock>, y: Sock, x: Sock)
    ensures In(l + [y], x) == In(l, x) + One(x == y)
  {
    if l == [] {
      assert l + [y] == [y];
    } else {
      assert (l + [y])[1..] == l[1..] + [y];
      InAppend(l[1..], y, x);
    }
  }

  lemma {:induction false} InIff(l: seq<Sock>, x: Sock)
    ensures x in l <==> In(l, x) > 0
  {
    if l != [] {
      InIff(l[1..], x);
    }
  }

  lemma {:induction false} HandsChange(hands: seq<Option<Sock>>, w: nat, o: Option<Sock>, x: Sock)
    requires w < |hands|
    ensures Serving(hands[w := o], x) == Serving(hands, x) - One(hands[w] == Some(x)) + One(o == Some(x))
  {
    if w == 0 {
      assert hands[0 := o][1..] == hands[1..];
    } else {
      assert hands[w := o][1..] == hands[1..][w - 1 := o];
      HandsChange(hands[1..], w - 1, o, x);
    }
  }

  /** A socket that comes back from a worker is never in the set already: eggRWSSet_add's search finds nothing. */
  lemma PutBackIsNew(s: State, w: nat)
    requires Inv(s) && w < |s.hands| && s.hands[w].Some?
    ensures var x := s.hands[w].value; x !in s.datafds && Added(s.datafds, x) == s.datafds + [x]
  {
    var x := s.hands[w].value;
    assert Places(s, x) <= 1;
    HandsChange(s.hands, w, None, x);
    InIff(s.datafds, x);
  }

  /** What a step does to the number of places x is in and to the books. */
  ghost predicate Moved(s: State, st: Step, t: State, x: Sock) {
    && t.accepts[x] == s.accepts[x] + One(st == AcceptStep(x))
    && s.closes[x] <= t.closes[x]
    && Places(t, x) + t.closes[x] == Places(s, x) + s.closes[x] + One(st == AcceptStep(x))
  }

  lemma MainMoves(s: State, st: Step, x: Sock)
    requires Inv(s) && Enabled(s, st) && !st.PopStep? && !st.PutBackStep? && !st.CloseStep?
    ensures Moved(s, st, Apply(s, st), x)
  {
    match st
    case AcceptStep(y) =>
      InIff(s.datafds, y);
      InAppend(s.datafds, y, x);
    case KeepStep => InAppend(s.datafds, s.scan.rest[0], x);
    case TakeOutStep => InAppend(s.queue, s.scan.rest[0], x);
    case _ =>
  }

  lemma WorkerMoves(s: State, st: Step, x: Sock)
    requires Inv(s) && Enabled(s, st) && (st.PopStep? || st.PutBackStep? || st.CloseStep?)
    ensures Moved(s, st, Apply(s, st), x)
  {
    match st
    case PopStep(w) => HandsChange(s.hands, w, Some(s.queue[0]), x);
    case PutBackStep(w) =>
      PutBackIsNew(s, w);
      InAppend(s.datafds, s.hands[w].value, x);
      HandsChange(s.hands, w, None, x);
    case CloseStep(w) => HandsChange(s.hands, w, None, x);
  }

  lemma StepInv(s: State, st: Step)
    requires Inv(s) && Enabled(s, st)
    ensures Inv(Apply(s, st))
  {
    var t := Apply(s, st);
    forall x: Sock ensures Places(t, x) <= 1 && t.accepts[x] == t.closes[x] + Places(t, x) {
      assert Moved(s, st, t, x) by {
        if st.PopStep? || st.PutBackStep? || st.CloseStep? { WorkerMoves(s, st, x); } else { MainMoves(s, st, x); }
      }
      assert Places(s, x) <= 1;
    }
  }

  /** Where the socket goes that a step is about: it was in one place, and is in one other, or is closed once more. */
  lemma WhereItGoes(s: State, st: Step, x: Sock)
    requires Inv(s) && Enabled(s, st)
    requires match st
             case AcceptStep(y) => x == y
             case KeepStep => x == s.scan.rest[0]
             case TakeOutStep => x == s.scan.rest[0]
             case PopStep(w) => x == s.queue[0]
             case PutBackStep(w) => Some(x) == s.hands[w]
             case CloseStep(w) => Some(x) == s.hands[w]
             case _ => false
    ensures var t := Apply(s, st);
            match st
            case AcceptStep(_) => x in t.datafds && t.accepts[x] == s.accepts[x] + 1 && Places(t, x) == 1
            case KeepStep => x in t.datafds && x !in Unscanned(t.scan) && Places(t, x) == 1
            case TakeOutStep =>
              if s.scan.closing then Places(t, x) == 0 && t.closes[x] == s.closes[x] + 1
              else x in t.queue && x !in Unscanned(t.scan) && Places(t, x) == 1
            case PopStep(w) => t.hands[w] == Some(x) && x !in t.queue && Places(t, x) == 1
            case PutBackStep(w) => x in t.datafds && t.hands[w] == None && Places(t, x) == 1
            case CloseStep(w) => t.hands[w] == None && Places(t, x) == 0 && t.closes[x] == s.closes[x] + 1
            case _ => true
  {
    var t := Apply(s, st);
    StepInv(s, st);
    assert Places(t, x) <= 1 && Places(s, x) <= 1;
    InIff(t.datafds, x);
    InIff(Unscanned(t.scan), x);
    InIff(t.queue, x);
    match st
    case AcceptStep(_) =>
    case KeepStep => InAppend(s.datafds, x, x);
    case TakeOutStep => InAppend(s.queue, x, x);
    case PopStep(w) => HandsChange(s.hands, w, Some(x), x);
    case PutBackStep(w) => PutBackGoes(s, w, x);
    case CloseStep(w) => HandsChange(s.hands, w, None, x);
    case _ =>
  }

  lemma PutBackGoes(s: State, w: nat, x: Sock)
    requires Inv(s) && Enabled(s, PutBackStep(w)) && s.hands[w] == Some(x)
    ensures In(Apply(s, PutBackStep(w)).datafds, x) == 1
  {
    PutBackIsNew(s, w);
    InAppend(s.datafds, x, x);
    InIff(s.datafds, x);
  }

  ghost predicate StepAt(ss: seq<State>, sts: seq<Step>, i: nat) {
    i + 1 < |ss| && i < |sts| && Enabled(ss[i], sts[i]) && ss[i + 1] == Apply(ss[i], sts[i])
  }

  ghost predicate IsRun(ss: seq<State>, sts: seq<Step>) {
    |ss| == |sts| + 1 && Inv(ss[0]) && forall i: nat :: i < |sts| ==> StepAt(ss, sts, i)
  }

  /** In every run, at every moment, each socket is closed at most as often as it was accepted, and it is in exactly
      one place if it is open and in none if it is not. */
  lemma {:induction false} OnePlaceEach(ss: seq<State>, sts: seq<Step>, i: nat, x: Sock)
    requires IsRun(ss, sts) && i < |ss|
    ensures Inv(ss[i])
    ensures ss[i].closes[x] <= ss[i].accepts[x] <= ss[i].closes[x] + 1
    ensures Places(ss[i], x) == ss[i].accepts[x] - ss[i].closes[x]
  {
    if i > 0 {
      OnePlaceEach(ss, sts, i - 1, x);
      assert StepAt(ss, sts, i - 1);
      StepInv(ss[i - 1], sts[i - 1]);
    }
    assert Places(ss[i], x) <= 1;
  }

  /** The main thread never closes or hands out a socket that a worker is serving, and no two workers serve one. */
  lemma ServedAlone(s: State, w: nat, v: nat)
    requires Inv(s) && w < |s.hands| && s.hands[w].Some?
    ensures var x := s.hands[w].value; x !in s.datafds && x !in Unscanned(s.scan) && x !in s.queue
    ensures v < |s.hands| && v != w ==> s.hands[v] != s.hands[w]
  {
    var x := s.hands[w].value;
    assert Places(s, x) <= 1;
    HandsChange(s.hands, w, None, x);
    InIff(s.datafds, x);
    InIff(Unscanned(s.scan), x);
    InIff(s.queue, x);
    if v < |s.hands| && v != w {
      HandsChange(s.hands[w := None], v, None, x);
    }
  }

  function Upto(n: nat): seq<Sock> {
    if n == 0 then [] else Upto(n - 1) + [n - 1]
  }

  lemma {:induction false} InUpto(n: nat, x: Sock)
    ensures In(Upto(n), x) == One(x < n)
  {
    if n > 0 {
      InUpto(n - 1, x);
      InAppend(Upto(n - 1), n - 1, x);
    }
  }

  function Idle(w: nat): seq<Option<Sock>> { seq(w, i => None) }

  lemma {:induction false} NoneServed(w: nat, x: Sock)
    ensures Serving(Idle(w), x) == 0
  {
    if w > 0 {
      assert Idle(w)[1..] == Idle(w - 1);
      NoneServed(w - 1, x);
    }
  }

  /** The first n sockets have been accepted, k of them are in the set and the others queued; w workers are idle. */
  function Shared(n: nat, k: nat, w: nat): State
    requires k <= n
  {
    State(Upto(k), Resting, From(k, n), Idle(w), multiset(Upto(n)), multiset{})
  }

  /** They have all been found readable and queued, and no worker has taken one yet. */
  function Queued(n: nat, w: nat): State { Shared(n, 0, w) }

  function From(k: nat, n: nat): seq<Sock>
    requires k <= n
  {
    if k == n then [] else From(k, n - 1) + [n - 1]
  }

  lemma {:induction false} InFrom(k: nat, n: nat, x: Sock)
    requires k <= n
    ensures In(From(k, n), x) == One(k <= x < n)
  {
    if k < n {
      InFrom(k, n - 1, x);
      InAppend(From(k, n - 1), n - 1, x);
    }
  }

  lemma {:induction false} FromHead(k: nat, n: nat)
    requires k < n
    ensures From(k, n) == [k] + From(k + 1, n)
  {
    if k + 1 < n {
      FromHead(k, n - 1);
    }
  }

  lemma SharedInv(n: nat, k: nat, w: nat)
    requires k <= n
    ensures Inv(Shared(n, k, w)) && Places(Shared(n, k, w), n) == 0
  {
    forall x: Sock
      ensures Places(Shared(n, k, w), x) == One(x < n) && multiset(Upto(n))[x] == One(x < n)
    {
      InUpto(k, x);
      InUpto(n, x);
      InFrom(k, n, x);
      NoneServed(w, x);
      InIsMultiplicity(Upto(n), x);
    }
  }

  /** There is a run from s to t. */
  ghost predicate Reaches(s: State, t: State) {
    exists sts :: After(s, sts) == Some(t)
  }

  function After(s: State, sts: seq<Step>): (r: Option<State>)
    decreases |sts|
  {
    if sts == [] then Some(s) else
      match After(s, sts[..|sts| - 1])
      case None => None
      case Some(t) => if Enabled(t, sts[|sts| - 1]) then Some(Apply(t, sts[|sts| - 1])) else None
  }

  lemma OneMore(s: State, t: State, st: Step)
    requires Reaches(s, t) && Enabled(t, st)
    ensures Reaches(s, Apply(t, st))
  {
    var sts :| After(s, sts) == Some(t);
    AfterMore(s, sts, t, st);
  }

  lemma AfterMore(s: State, sts: seq<Step>, t: State, st: Step)
    requires After(s, sts) == Some(t) && Enabled(t, st)
    ensures After(s, sts + [st]) == Some(Apply(t, st))
  {
    assert (sts + [st])[..|sts|] == sts;
  }

  /** A scan hands the only waiting socket to the queue. */
  lemma ScanOver(s: State, t: State, x: Sock)
    requires Reaches(s, t) && t.datafds == [x] && t.scan.Resting?
    ensures Reaches(s, t.(datafds := [], queue := t.queue + [x]))
  {
    OneMore(s, t, BeginScanStep(false));
    var t1 := t.(datafds := [], scan := Scanning([x], false));
    OneMore(s, t1, TakeOutStep);
    var t2 := t1.(scan := Scanning([], false), queue := t.queue + [x]);
    assert [x][1..] == [] && Apply(t1, TakeOutStep) == t2;
    OneMore(s, t2, EndScanStep);
    assert Apply(t2, EndScanStep) == t.(datafds := [], queue := t.queue + [x]);
  }

  /** A connection is accepted, and the next scan hands it to the queue. */
  lemma QueueOneMore(n: nat, w: nat)
    requires Reaches(Queued(0, w), Queued(n, w))
    ensures Reaches(Queued(0, w), Queued(n + 1, w))
  {
    var s := Queued(n, w);
    SharedInv(n, 0, w);
    OneMore(Queued(0, w), s, AcceptStep(n));
    var s1 := s.(datafds := [n], accepts := s.accepts + multiset{n});
    assert Apply(s, AcceptStep(n)) == s1;
    ScanOver(Queued(0, w), s1, n);
    assert multiset(Upto(n) + [n]) == multiset(Upto(n)) + multiset{n};
    assert Queued(n + 1, w) == s1.(datafds := [], queue := s1.queue + [n]);
  }

  lemma {:induction false} QueueMany(n: nat, w: nat)
    ensures Reaches(Queued(0, w), Queued(n, w))
  {
    if n == 0 {
      assert After(Queued(0, w), []) == Some(Queued(0, w));
    } else {
      QueueMany(n - 1, w);
      QueueOneMore(n - 1, w);
    }
  }

  /** The limit on clients is checked against the waiting ones only: with any number of idle workers and for any n there is
      a run of the empty server after which n sockets are open and queued, and the next connection is still accepted. */
  lemma LimitIsOnWaiting(n: nat, w: nat)
    ensures Reaches(Queued(0, w), Queued(n, w)) && Inv(Queued(n, w)) && Enabled(Queued(n, w), AcceptStep(n))
  {
    QueueMany(n, w);
    SharedInv(n, 0, w);
  }

  /** A worker takes the next one, and puts it back. */
  lemma PutOneBack(n: nat, k: nat, w: nat)
    requires k < n && 0 < w && Reaches(Queued(0, w), Shared(n, k, w))
    ensures Reaches(Queued(0, w), Shared(n, k + 1, w))
  {
    var s := Shared(n, k, w);
    FromHead(k, n);
    OneMore(Queued(0, w), s, PopStep(0));
    var s1 := s.(queue := From(k + 1, n), hands := Idle(w)[0 := Some(k)]);
    OneMore(Queued(0, w), s1, PutBackStep(0));
    InUpto(k, k);
    InIff(Upto(k), k);
    assert Idle(w)[0 := Some(k)][0 := None] == Idle(w);
    assert Added(Upto(k), k) == Upto(k + 1);
  }

  lemma {:induction false} PutManyBack(n: nat, k: nat, w: nat)
    requires k <= n && 0 < w
    ensures Reaches(Queued(0, w), Shared(n, k, w))
  {
    if k == 0 {
      QueueMany(n, w);
    } else {
      PutManyBack(n, k - 1, w);
      PutOneBack(n, k - 1, w);
    }
  }

  /** Nothing is checked when a socket is put back, so even the waiting ones can be any number: with one worker or more
      there is a run of the empty server after which n sockets are in the set. */
  lemma SetPassesLimit(n: nat, w: nat)
    requires 0 < w
    ensures Reaches(Queued(0, w), Shared(n, n, w)) && |Shared(n, n, w).datafds| == n
  {
    PutManyBack(n, n, w);
    UptoSize(n);
  }

  lemma {:induction false} UptoSize(n: nat)
    ensures |Upto(n)| == n
  {
    if n > 0 { UptoSize(n - 1); }
  }

  function Waiting(s: State): nat { |s.datafds| + |Unscanned(s.scan)| }

  /** Between scans a new connection is denied if and only if 800 are waiting or more. */
  lemma DeniedIff(s: State, x: Sock)
    requires s.scan.Resting? && Places(s, x) == 0
    ensures !Enabled(s, AcceptStep(x)) <==> 800 <= Waiting(s)
  {
  }

  /** What the limit does give: only putting back makes the waiting ones more than CLIENTFD_MAX. */
  lemma LimitHolds(s: State, st: Step)
    requires Enabled(s, st) && Waiting(Apply(s, st)) > Waiting(s)
    ensures Waiting(Apply(s, st)) == Waiting(s) + 1 && (st.AcceptStep? || st.PutBackStep?)
    ensures Waiting(Apply(s, st)) > 800 ==> st.PutBackStep?
  {
  }

  lemma {:induction false} InIsMultiplicity(l: seq<Sock>, x: Sock)
    ensures In(l, x) == multiset(l)[x]
  {
    if l != [] {
      assert l == [l[0]] + l[1..];
      InIsMultiplicity(l[1..], x);
    }
  }

  // ----- a whole scan

  /** The main thread's scan, one look after the other, with no other thread in between. */
  function ScanAll(s: State, out: Sock -> bool): State
    requires s.scan.Scanning?
    decreases |s.scan.rest|
  {
    if s.scan.rest == [] then Apply(s, EndScanStep)
    else ScanAll(Apply(s, if out(s.scan.rest[0]) then TakeOutStep else KeepStep), out)
  }

  lemma {:induction false} FilterHead(l: seq<Sock>, out: Sock -> bool, want: bool)
    requires l != []
    ensures Filter(l, out, want) == (if out(l[0]) == want then [l[0]] else []) + Filter(l[1..], out, want)
  {
    var n := |l| - 1;
    if n == 0 {
      assert l[..0] == [] && l[1..] == [];
    } else {
      assert l[..n][1..] == l[1..][..n - 1];
      FilterHead(l[..n], out, want);
    }
  }

  ghost predicate Scanned(s: State, out: Sock -> bool, t: State)
    requires s.scan.Scanning?
  {
    Outcome(s, Filter(s.scan.rest, out, false), Filter(s.scan.rest, out, true), t)
  }

  ghost predicate Outcome(s: State, kept: seq<Sock>, gone: seq<Sock>, t: State)
    requires s.scan.Scanning?
  {
    && t.scan.Resting? && t.hands == s.hands && t.accepts == s.accepts
    && t.datafds == s.datafds + kept
    && t.queue == (if s.scan.closing then s.queue else s.queue + gone)
    && t.closes == (if s.scan.closing then s.closes + multiset(gone) else s.closes)
  }

  lemma Assoc(a: seq<Sock>, x: Sock, b: seq<Sock>)
    ensures (a + [x]) + b == a + ([x] + b)
  {
  }

  lemma CountedIn(m: multiset<Sock>, x: Sock, b: seq<Sock>)
    ensures (m + multiset{x}) + multiset(b) == m + multiset([x] + b)
  {
    assert multiset([x] + b) == multiset{x} + multiset(b);
  }

  lemma KeptOne(s: State, kept: seq<Sock>, gone: seq<Sock>, t: State)
    requires s.scan.Scanning? && s.scan.rest != [] && Outcome(Apply(s, KeepStep), kept, gone, t)
    ensures Outcome(s, [s.scan.rest[0]] + kept, gone, t)
  {
    Assoc(s.datafds, s.scan.rest[0], kept);
  }

  lemma TookOne(s: State, kept: seq<Sock>, gone: seq<Sock>, t: State)
    requires s.scan.Scanning? && s.scan.rest != [] && Outcome(Apply(s, TakeOutStep), kept, gone, t)
    ensures Outcome(s, kept, [s.scan.rest[0]] + gone, t)
  {
    if s.scan.closing {
      CountedIn(s.closes, s.scan.rest[0], gone);
    } else {
      Assoc(s.queue, s.scan.rest[0], gone);
    }
  }

  lemma ScanOne(s: State, out: Sock -> bool, t: State)
    requires s.scan.Scanning? && s.scan.rest != []
    requires Scanned(Apply(s, if out(s.scan.rest[0]) then TakeOutStep else KeepStep), out, t)
    ensures Scanned(s, out, t)
  {
    var x, kept, gone := s.scan.rest[0], Filter(s.scan.rest[1..], out, false), Filter(s.scan.rest[1..], out, true);
    FilterHead(s.scan.rest, out, false);
    FilterHead(s.scan.rest, out, true);
    if out(x) {
      TookOne(s, kept, gone, t);
      assert [] + kept == kept;
    } else {
      KeptOne(s, kept, gone, t);
      assert [] + gone == gone;
    }
  }

  /** A scan that takes out what `out` picks does to the set what eggRWSSet_remove does, and hands over or closes
      exactly the picked sockets, in order. */
  lemma {:induction false} ScanIsRemove(s: State, out: Sock -> bool)
    requires s.scan.Scanning?
    ensures Scanned(s, out, ScanAll(s, out))
    decreases |s.scan.rest|
  {
    if s.scan.rest != [] {
      ScanIsRemove(Apply(s, if out(s.scan.rest[0]) then TakeOutStep else KeepStep), out);
      ScanOne(s, out, ScanAll(s, out));
    }
  }
}
