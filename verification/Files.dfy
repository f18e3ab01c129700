/** The package files.  Each is in a directory that has a mem-server's name: made when the mem-server is created, opened
    from its beginning when its process starts, and removed with the mem-server, whoever else may have that name. */
module Files {
  import opened Ordered
  import opened Descriptors
  import opened Lifecycle
  import opened LoopChange
  import opened Names

  /** Names of mem-servers that m has and q has not. */
  function Without(m: Mgr, q: Mgr): set<int> {
    set h | h in m.d && h !in q.d && !m.d[h].creator :: m.d[h].name
  }

  /** From m to q: directories that mem-servers leave are removed, and directories of new ones are made, unless they are
      there. */
  function Dirs<P>(files: map<int, seq<P>>, m: Mgr, q: Mgr): map<int, seq<P>> {
    map x | x in (files.Keys - Without(m, q)) + Without(q, m) ::
      if x in files && x !in Without(m, q) then files[x] else []
  }

  predicate Forks(m: Mgr, q: Mgr, h: Handle) {
    h in m.d && h in q.d && m.d[h].si.stat.Unforked? && q.d[h].si.stat.Normal?
  }

  /** How many packages the process of each mem-server has written to the file that its directory holds.  A process whose
      directory was removed has none: its file is not reachable by name any more. */
  function Opened<P>(offs: map<Handle, nat>, files: map<int, seq<P>>, m: Mgr, q: Mgr): map<Handle, nat> {
    map h | h in m.d && h in q.d && q.d[h].name !in Without(m, q) && (h in offs || (Forks(m, q, h) && q.d[h].name in files)) ::
      if h in offs then offs[h] else 0
  }

  /** What a replay of h's log reads. */
  function Log<P>(files: map<int, seq<P>>, m: Mgr, h: Handle): seq<P> {
    if h in m.d && !m.d[h].creator && m.d[h].name in files then files[m.d[h].name] else []
  }

  /** eggRWSPackBuf_add by a process that has written `off` packages.  At the end of the file that is appending; elsewhere
      it writes over what is there, and it is left open what the rest then reads as. */
  function Placed<P>(file: seq<P>, off: nat, pkg: P, rest: seq<P>): seq<P>
    requires off <= |file|
  {
    file[..off] + [pkg] + if off == |file| then [] else rest
  }

  predicate Reaches<P>(files: map<int, seq<P>>, offs: map<Handle, nat>, m: Mgr, h: Handle) {
    h in m.d && h in offs && m.d[h].name in files && offs[h] <= |files[m.d[h].name]|
  }

  function Written<P>(files: map<int, seq<P>>, offs: map<Handle, nat>, m: Mgr, h: Handle, pkg: P, rest: seq<P>):
    map<int, seq<P>>
  {
    if Reaches(files, offs, m, h) then files[m.d[h].name := Placed(files[m.d[h].name], offs[h], pkg, rest)] else files
  }

  function Advanced<P>(files: map<int, seq<P>>, offs: map<Handle, nat>, m: Mgr, h: Handle): map<Handle, nat> {
    if Reaches(files, offs, m, h) then offs[h := offs[h] + 1] else offs
  }

  // ----- the invariant

  predicate Owned(m: Mgr, x: int) {
    exists h :: h in m.d && !m.d[h].creator && m.d[h].name == x
  }

  /** Every mem-server has its directory and every directory its mem-server; before the process is started the file is
      empty; while it takes packages it writes at the end. */
  ghost predicate Tidy<P>(files: map<int, seq<P>>, offs: map<Handle, nat>, m: Mgr) {
    && (forall h :: h in m.d && !m.d[h].creator ==> m.d[h].name in files)
    && (forall x :: x in files ==> Owned(m, x))
    && (forall h :: h in m.d && !m.d[h].creator ==> FileOk(files, offs, m.d[h], h))
  }

  predicate FileOk<P>(files: map<int, seq<P>>, offs: map<Handle, nat>, x: Desc, h: Handle) {
    x.name in files &&
    (match x.si.stat
     case Unforked => h !in offs && files[x.name] == []
     case Normal => h in offs && offs[h] == |files[x.name]|
     case _ => true)
  }

  // ----- steps that change no key

  ghost predicate SameKeys(m: Mgr, q: Mgr) {
    q.d.Keys == m.d.Keys &&
    forall h :: h in m.d ==> q.d[h].name == m.d[h].name && q.d[h].creator == m.d[h].creator
  }

  lemma SameLog<P>(files: map<int, seq<P>>, m: Mgr, q: Mgr)
    requires SameKeys(m, q)
    ensures forall h :: Log(files, q, h) == Log(files, m, h)
  {
  }

  lemma SameOwned(m: Mgr, q: Mgr)
    requires SameKeys(m, q)
    ensures forall x :: Owned(m, x) ==> Owned(q, x)
  {
    forall x | Owned(m, x) ensures Owned(q, x) {
      var h :| h in m.d && !m.d[h].creator && m.d[h].name == x;
      assert q.d[h].name == x;
    }
  }

  lemma UsersTidy<P>(files: map<int, seq<P>>, offs: map<Handle, nat>, m: Mgr, h: Handle, k: int)
    requires Tidy(files, offs, m) && h in m.d
    ensures Tidy(files, offs, AddUsers(m, h, k))
    ensures forall g :: Log(files, AddUsers(m, h, k), g) == Log(files, m, g)
  {
    var q := AddUsers(m, h, k);
    SameOwned(m, q);
    SameLog(files, m, q);
    forall g | g in q.d && !q.d[g].creator ensures FileOk(files, offs, q.d[g], g) {
      assert FileOk(files, offs, m.d[g], g);
    }
  }

  // ----- steps of the main loop

  /** What the two functions come to for each kind of change. */
  ghost predicate Moved<P>(files: map<int, seq<P>>, m: Mgr, q: Mgr, c: Change)
    requires KeyChange(m, q, c)
  {
    var files' := Dirs(files, m, q);
    match c
    case Removed(h) =>
      && (forall x :: x in files' <==> x in files && (m.d[h].creator || x != m.d[h].name))
      && (forall x :: x in files' ==> files'[x] == files[x])
    case Added(h, _) =>
      && (forall x :: x in files' <==> x in files || (!q.d[h].creator && x == q.d[h].name))
      && (forall x :: x in files' ==> files'[x] == if x in files then files[x] else [])
    case _ => files' == files
  }

  lemma SameWithout(m: Mgr, q: Mgr)
    requires m.d.Keys <= q.d.Keys
    ensures Without(m, q) == {}
  {
  }

  lemma RemovedWithout(m: Mgr, q: Mgr, h: Handle)
    requires h in m.d && q.d.Keys == m.d.Keys - {h}
    ensures Without(m, q) == if m.d[h].creator then {} else {m.d[h].name}
    ensures Without(q, m) == {}
  {
    assert forall g :: g in m.d && g !in q.d <==> g == h;
    if !m.d[h].creator { assert m.d[h].name in Without(m, q); }
  }

  lemma DirsMoved<P>(files: map<int, seq<P>>, m: Mgr, q: Mgr, c: Change)
    requires KeyChange(m, q, c)
    ensures Moved(files, m, q, c)
    ensures !c.Removed? ==> Without(m, q) == {}
    ensures c.Removed? ==> Without(m, q) == if m.d[c.h].creator then {} else {m.d[c.h].name}
  {
    match c
    case Removed(h) => RemovedWithout(m, q, h);
    case Added(h, _) => RemovedWithout(q, m, h);
    case _ =>
      SameWithout(m, q);
      SameWithout(q, m);
      assert Dirs(files, m, q) == files;
  }

  /** All directories stay, and those that are to be made are there. */
  lemma KeptDirs<P>(files: map<int, seq<P>>, m: Mgr, q: Mgr)
    requires m.d.Keys <= q.d.Keys && Without(q, m) <= files.Keys
    ensures Dirs(files, m, q) == files
  {
    SameWithout(m, q);
  }

  lemma NoneOpened<P>(files: map<int, seq<P>>, m: Mgr, q: Mgr)
    requires forall h :: !Forks(m, q, h)
    ensures Opened(map[], files, m, q) == map[]
  {
  }

  /** No mem-server but the one that a change is about is touched by it. */
  lemma OtherFile<P>(files: map<int, seq<P>>, offs: map<Handle, nat>, m: Mgr, q: Mgr, c: Change, g: Handle)
    requires Tidy(files, offs, m) && Distinct(m) && Distinct(q) && Changed(m, q, c)
    requires g in m.d && g in q.d && !m.d[g].creator && !About(c, g)
    ensures FileOk(Dirs(files, m, q), Opened(offs, files, m, q), q.d[g], g)
    ensures Log(Dirs(files, m, q), q, g) == Log(files, m, g)
  {
    DirsMoved(files, m, q, c);
    assert FileOk(files, offs, m.d[g], g);
  }

  lemma SubjectFile<P>(files: map<int, seq<P>>, offs: map<Handle, nat>, m: Mgr, q: Mgr, c: Change)
    requires Tidy(files, offs, m) && Distinct(m) && Distinct(q) && Changed(m, q, c) && !c.Same?
    requires c.h in q.d && !q.d[c.h].creator
    ensures FileOk(Dirs(files, m, q), Opened(offs, files, m, q), q.d[c.h], c.h)
    ensures Log(Dirs(files, m, q), q, c.h) == if c.h in m.d then Log(files, m, c.h) else []
  {
    DirsMoved(files, m, q, c);
    if c.Added? {
      NewName(files, offs, m, q, c.h);
    } else {
      assert FileOk(files, offs, m.d[c.h], c.h);
    }
  }

  lemma NewName<P>(files: map<int, seq<P>>, offs: map<Handle, nat>, m: Mgr, q: Mgr, h: Handle)
    requires Tidy(files, offs, m) && Distinct(q) && h in q.d && h !in m.d && !q.d[h].creator
    requires forall g :: g in m.d ==> g in q.d && q.d[g].name == m.d[g].name && q.d[g].creator == m.d[g].creator
    ensures q.d[h].name !in files
  {
  }

  lemma DirsOwned<P>(files: map<int, seq<P>>, offs: map<Handle, nat>, m: Mgr, q: Mgr, c: Change, x: int)
    requires Tidy(files, offs, m) && Changed(m, q, c) && x in Dirs(files, m, q)
    ensures Owned(q, x)
  {
    DirsMoved(files, m, q, c);
    if x in files {
      var h :| h in m.d && !m.d[h].creator && m.d[h].name == x;
      assert h in q.d && q.d[h].name == x;
    } else {
      assert q.d[c.h].name == x;
    }
  }

  lemma ChangeLog<P>(files: map<int, seq<P>>, offs: map<Handle, nat>, m: Mgr, q: Mgr, c: Change, g: Handle)
    requires Tidy(files, offs, m) && Distinct(m) && Distinct(q) && Changed(m, q, c)
    ensures g in q.d ==> Log(Dirs(files, m, q), q, g) == if g in m.d then Log(files, m, g) else []
    ensures g in q.d && !q.d[g].creator ==> FileOk(Dirs(files, m, q), Opened(offs, files, m, q), q.d[g], g)
  {
    if g in q.d && !q.d[g].creator {
      if About(c, g) { SubjectFile(files, offs, m, q, c); } else { OtherFile(files, offs, m, q, c, g); }
    }
  }

  /** As long as names are distinct a step of the main loop keeps files tidy, and changes no log. */
  lemma ChangeTidy<P>(files: map<int, seq<P>>, offs: map<Handle, nat>, m: Mgr, q: Mgr, c: Change)
    requires Tidy(files, offs, m) && Distinct(m) && Distinct(q) && Changed(m, q, c)
    ensures Tidy(Dirs(files, m, q), Opened(offs, files, m, q), q)
    ensures forall g :: g in q.d ==> Log(Dirs(files, m, q), q, g) == if g in m.d then Log(files, m, g) else []
  {
    forall g | g in q.d
      ensures Log(Dirs(files, m, q), q, g) == if g in m.d then Log(files, m, g) else []
      ensures !q.d[g].creator ==> FileOk(Dirs(files, m, q), Opened(offs, files, m, q), q.d[g], g)
    {
      ChangeLog(files, offs, m, q, c, g);
    }
    forall x | x in Dirs(files, m, q) ensures Owned(q, x) { DirsOwned(files, offs, m, q, c, x); }
  }

  // ----- writing

  /** A mem-server that takes packages appends to its own log and touches no other. */
  lemma WriteTidy<P>(files: map<int, seq<P>>, offs: map<Handle, nat>, m: Mgr, h: Handle, pkg: P, rest: seq<P>)
    requires Tidy(files, offs, m) && Distinct(m) && h in m.d && m.d[h].si.stat.Normal? && !m.d[h].creator
    ensures Tidy(Written(files, offs, m, h, pkg, rest), Advanced(files, offs, m, h), m)
    ensures Log(Written(files, offs, m, h, pkg, rest), m, h) == Log(files, m, h) + [pkg]
    ensures forall g :: g != h ==> Log(Written(files, offs, m, h, pkg, rest), m, g) == Log(files, m, g)
  {
    var files', offs' := Written(files, offs, m, h, pkg, rest), Advanced(files, offs, m, h);
    assert FileOk(files, offs, m.d[h], h);
    var file := files[m.d[h].name];
    assert file[..|file|] + [pkg] + [] == file + [pkg];
    forall g | g in m.d && !m.d[g].creator ensures FileOk(files', offs', m.d[g], g) {
      assert FileOk(files, offs, m.d[g], g);
    }
  }
}
