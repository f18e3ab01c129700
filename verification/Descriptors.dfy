/** Mem-server descriptors and the two orders they are kept in. */
module Descriptors {
  import opened Ordered
  import opened Times

  /** A descriptor is known by its handle (its address in the source), because two descriptors may carry the
      same name; `name` is the rank of its name in strcmp order. */
  type Handle = nat

  const FOREVER := TIMEMAX  // TIMETOLIVE_WAITFOREVER
  const DUMPING_MIN := 3
  const HALTING_MIN := 0
  const FORK_RETRY := 30

  datatype Stat = Unforked | Normal | Cleanup | Dumping | Halting

  datatype Trigger = ForkT | DumpingT | HaltingT | EndT | CreateT

  /** STATUSINSTRUCT: the state with its three flags, the time to live, and the trigger. */
  datatype Instruct = Instruct(stat: Stat, w: bool, r: bool, retry: bool, ttl: int, trigger: Trigger)

  datatype Desc = Desc(name: int, id: int, users: int, thread: bool, creator: bool,
                       si: Instruct, next: Option<Instruct>, timeout: Time)

  /** statusinstruct_set */
  function StatusSet(stat: Stat, ttl: int): Instruct {
    match stat
    case Unforked => Instruct(Unforked, false, false, false, 0, ForkT)
    case Normal => Instruct(Normal, true, true, false, ttl, DumpingT)
    case Cleanup => Instruct(Cleanup, false, false, false, ttl, DumpingT)
    case Dumping => Instruct(Dumping, false, true, false, ttl, HaltingT)
    case Halting => Instruct(Halting, false, false, false, ttl, EndT)
  }

  /** cmpName and cmpTimeout.  The second compares seconds only: its test on microseconds compares a field with
      itself. */
  datatype Order = ByName | ByTimeout

  function Key(d: map<Handle, Desc>, o: Order, h: Handle): int {
    if h !in d then 0 else if o.ByName? then d[h].name else d[h].timeout.sec
  }

  ghost predicate Sorted(s: seq<Handle>, d: map<Handle, Desc>, o: Order) {
    forall i, j :: 0 <= i < j < |s| ==> Key(d, o, s[i]) <= Key(d, o, s[j])
  }

  /** doublelink_add's search: the first element whose key is greater than k. */
  function Pos(s: seq<Handle>, d: map<Handle, Desc>, o: Order, k: int): (i: nat)
    ensures i <= |s|
    ensures forall j :: 0 <= j < i ==> Key(d, o, s[j]) <= k
    ensures i < |s| ==> k < Key(d, o, s[i])
  {
    if s == [] || k < Key(d, o, s[0]) then 0 else 1 + Pos(s[1..], d, o, k)
  }

  /** doublelink_add: in order, after the elements with the same key. */
  function Insert(s: seq<Handle>, d: map<Handle, Desc>, o: Order, h: Handle): seq<Handle> {
    InsertAt(s, Pos(s, d, o, Key(d, o, h)), h)
  }

  lemma RemoveSorted(s: seq<Handle>, h: Handle, d: map<Handle, Desc>, o: Order)
    requires h in s && NoDup(s) && Sorted(s, d, o)
    ensures Sorted(Remove(s, h), d, o)
  {
    var i := RemoveIsDrop(s, h);
  }

  lemma InsertSorted(s: seq<Handle>, d: map<Handle, Desc>, o: Order, h: Handle)
    requires Sorted(s, d, o)
    ensures Sorted(Insert(s, d, o, h), d, o)
  {
  }

  lemma SortedAgree(s: seq<Handle>, d: map<Handle, Desc>, d': map<Handle, Desc>, o: Order)
    requires Sorted(s, d, o) && forall x :: x in s ==> Key(d, o, x) == Key(d', o, x)
    ensures Sorted(s, d', o)
  {
    assert forall i :: 0 <= i < |s| ==> s[i] in s;
  }

  /** A list that holds every descriptor of d once, in order. */
  ghost predicate Listing(s: seq<Handle>, d: map<Handle, Desc>, o: Order) {
    NoDup(s) && Sorted(s, d, o) && forall h :: h in s <==> h in d
  }

  /** Moving one element to the place its new key asks for. */
  lemma ResortListing(s: seq<Handle>, h: Handle, d: map<Handle, Desc>, x: Desc, o: Order)
    requires Listing(s, d, o) && h in d
    ensures var d' := d[h := x];
            var t := Insert(Remove(s, h), d', o, h);
            Listing(t, d', o) && |t| == |s|
  {
    var d' := d[h := x];
    RemoveFacts(s, h);
    RemoveSorted(s, h, d, o);
    var rest := Remove(s, h);
    SortedAgree(rest, d, d', o);
    InsertFacts(rest, Pos(rest, d', o, Key(d', o, h)), h);
    InsertSorted(rest, d', o, h);
  }

  lemma KeepListing(s: seq<Handle>, d: map<Handle, Desc>, d': map<Handle, Desc>, o: Order)
    requires Listing(s, d, o) && d.Keys == d'.Keys && forall h :: h in d ==> Key(d, o, h) == Key(d', o, h)
    ensures Listing(s, d', o)
  {
    SortedAgree(s, d, d', o);
  }

  lemma AddListing(s: seq<Handle>, h: Handle, d: map<Handle, Desc>, x: Desc, o: Order)
    requires Listing(s, d, o) && h !in d
    ensures var d' := d[h := x];
            var t := Insert(s, d', o, h);
            Listing(t, d', o) && |t| == |s| + 1
  {
    var d' := d[h := x];
    SortedAgree(s, d, d', o);
    InsertFacts(s, Pos(s, d', o, Key(d', o, h)), h);
    InsertSorted(s, d', o, h);
  }

  lemma DelListing(s: seq<Handle>, h: Handle, d: map<Handle, Desc>, o: Order)
    requires Listing(s, d, o) && h in d
    ensures Listing(Remove(s, h), d - {h}, o) && |Remove(s, h)| == |s| - 1
  {
    RemoveFacts(s, h);
    RemoveSorted(s, h, d, o);
    SortedAgree(Remove(s, h), d, d - {h}, o);
  }
}
