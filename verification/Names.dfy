/** Names.  A mem-server's directory has its name, so two mem-servers of one name would share a package file, and the end
    of one would remove the file of the other.  The source never looks whether a name is taken; here is when that does no
    harm: as long as a creator's ids run ahead of the names there are, or it is deleted before it gives one. */
module Names {
  import opened Ordered
  import opened Times
  import opened Descriptors
  import opened Lifecycle
  import opened LifecycleInv
  import opened MainLoop
  import opened LoopChange

  /** timeval_getRecentInstanceString of the creator's id.  The name that is formatted from an instant has that instant
      for its rank: with a fixed offset `off` of local time the order of the digits is the order of time. */
  function GivenName(m: Mgr, c: Handle, off: int): int
    requires c in m.d && 0 < m.age
  {
    Instant(m.age, m.d[c].id, off, m.now.sec)
  }

  /** What the source calls a new mem-server, where a new creator begins, and a clock that is past the first period: an
      id that is 0 would stand for the clock. */
  predicate Named(s: State, st: Step, off: int)
    requires 0 < s.m.age
  {
    match st
    case FireStep(h, _, name, _) => h in s.m.d && s.m.d[h].creator ==> name == GivenName(s.m, h, off)
    case CallStep(_, id, _) => id == Instant(s.m.age, s.m.now.sec, off, s.m.now.sec)
    case TickStep(now) => s.m.age * 60 <= now.sec
    case _ => true
  }

  // ----- the invariant

  ghost predicate Distinct(m: Mgr) {
    forall g, h :: g in m.d && h in m.d && g != h && !m.d[g].creator && !m.d[h].creator ==> m.d[g].name != m.d[h].name
  }

  /** A creator that is at `id` never gives this name. */
  ghost predicate NeverGives(id: int, age: int, name: int) {
    forall k: nat :: CreatorId(id, age, k) != name
  }

  ghost predicate Ahead(m: Mgr) {
    forall c, g :: c in m.d && g in m.d && m.d[c].creator && !m.d[g].creator ==>
      NeverGives(m.d[c].id, m.age, m.d[g].name)
  }

  ghost predicate OneCreator(m: Mgr) {
    forall b, c :: b in m.d && c in m.d && m.d[b].creator && m.d[c].creator ==> b == c
  }

  /** Creators' ids are the instants that their names are formatted from. */
  ghost predicate IdsOk(m: Mgr, off: int)
    requires 0 < m.age
  {
    forall c :: c in m.d && m.d[c].creator ==> 0 < m.d[c].id && Aligned(m.d[c].id, off, m.age * 60)
  }

  /** There are too many mem-servers, so the creator is deleted before anything fires. */
  predicate Doomed(s: State) {
    s.pc.Delete? || (s.pc.Check? && TooFull(s.m))
  }

  ghost predicate Orderly(m: Mgr, off: int) {
    && 0 < m.age && m.age * 60 <= m.now.sec
    && Distinct(m) && OneCreator(m) && IdsOk(m, off)
  }

  ghost predicate Unique(s: State, off: int) {
    Orderly(s.m, off) && (Doomed(s) || Ahead(s.m))
  }

  // ----- ids run ahead

  lemma {:induction false} NextIds(id: int, age: int, k: nat)
    ensures CreatorId(id + age * 60, age, k) == CreatorId(id, age, k + 1)
    ensures 0 < age ==> id < CreatorId(id, age, k + 1)
  {
    if k > 0 { NextIds(id, age, k - 1); }
  }

  /** Having given its id, a creator never gives it again, nor what it would not have given before. */
  lemma MovedOn(id: int, age: int, name: int)
    requires 0 < age
    ensures NeverGives(id + age * 60, age, id)
    ensures NeverGives(id, age, name) ==> NeverGives(id + age * 60, age, name)
  {
    var next := id + age * 60;
    forall k: nat ensures CreatorId(next, age, k) != id && (NeverGives(id, age, name) ==> CreatorId(next, age, k) != name) {
      NextIds(id, age, k);
    }
  }

  lemma NextAligned(id: int, off: int, age: int)
    requires 0 < age && Aligned(id, off, age * 60)
    ensures Aligned(id + age * 60, off, age * 60)
  {
    MulMod(1, age * 60);
    ModShift(id + off, age * 60, age * 60);
  }

  // ----- steps

  /** Some may be gone; the others have the names and ids they had. */
  ghost predicate Shrunk(m: Mgr, q: Mgr) {
    && q.age == m.age && q.d.Keys <= m.d.Keys
    && forall h :: h in q.d ==> q.d[h].name == m.d[h].name && q.d[h].id == m.d[h].id && q.d[h].creator == m.d[h].creator
  }

  lemma ShrunkOrderly(m: Mgr, q: Mgr, off: int)
    requires Orderly(m, off) && Shrunk(m, q) && q.age * 60 <= q.now.sec
    ensures Orderly(q, off) && (Ahead(m) ==> Ahead(q))
  {
  }

  ghost predicate SameClock(m: Mgr, q: Mgr) {
    q.now == m.now && q.age == m.age && q.max == m.max
  }

  lemma TrigClock(m: Mgr, h: Handle, born: Handle, name: int, ok: bool)
    requires Inv(m) && Triggerable(m, h, born)
    ensures SameClock(m, Trig(m, h, born, name, ok))
  {
    match m.d[h].si.trigger
    case HaltingT => if m.d[h].users == 0 { SignalWakesAll(m.(slot := None)); }
    case CreateT => CreateFacts(m, h, born, name);
    case _ =>
  }

  /** Only the clock's own step changes it. */
  lemma StepClock(s: State, st: Step)
    requires Inv(s.m) && Enabled(s, st) && !st.TickStep?
    ensures SameClock(s.m, Apply(s, st).m)
  {
    match st
    case FireStep(h, born, name, ok) => TrigClock(s.m, h, born, name, ok);
    case SignalStep => SignalWakesAll(s.m);
    case CheckStep => WritableFacts(s.m.byName, s.m.d);
    case _ =>
  }

  /** The creator gives its id for a name, and moves on. */
  lemma CreatedOrderly(m: Mgr, c: Handle, h: Handle, name: int, off: int, q: Mgr)
    requires Orderly(m, off) && Ahead(m) && c in m.d && h !in m.d && m.d[c].creator && name == GivenName(m, c, off)
    requires Created(m, c, h, name, q)
    ensures Orderly(q, off) && Ahead(q)
  {
    var id := m.d[c].id;
    GivesItsId(m, c, off);
    NextAligned(id, off, m.age);
    assert name == id == CreatorId(id, m.age, 0);
    forall g | g in q.d && !q.d[g].creator ensures NeverGives(id + m.age * 60, m.age, q.d[g].name) {
      MovedOn(id, m.age, q.d[g].name);
    }
    assert Distinct(q) by {
      forall g | g in m.d && !m.d[g].creator ensures m.d[g].name != name {
        assert NeverGives(id, m.age, m.d[g].name);
      }
    }
  }

  lemma GivesItsId(m: Mgr, c: Handle, off: int)
    requires Orderly(m, off) && c in m.d && m.d[c].creator
    ensures GivenName(m, c, off) == m.d[c].id
  {
    InstantFixed(m.age, m.d[c].id, off, m.now.sec);
  }

  lemma CreateOrderly(m: Mgr, c: Handle, h: Handle, name: int, off: int)
    requires Orderly(m, off) && Ahead(m) && c in m.d && h !in m.d && m.d[c].creator && name == GivenName(m, c, off)
    ensures Orderly(Create(m, c, h, name), off) && Ahead(Create(m, c, h, name))
  {
    CreateFacts(m, c, h, name);
    CreatedOrderly(m, c, h, name, off, Create(m, c, h, name));
  }

  /** A new creator is made when nothing is left. */
  lemma NewCreatorOrderly(m: Mgr, c: Handle, id: int, name: int, off: int)
    requires Orderly(m, off) && m.d.Keys == {} && id == Instant(m.age, m.now.sec, off, m.now.sec)
    ensures c !in m.d && Orderly(NewCreator(m, c, id, name), off) && Ahead(NewCreator(m, c, id, name))
  {
    BeginsAligned(m.age, m.now.sec, off);
    var q := NewCreator(m, c, id, name);
    assert q.d == map[c := q.d[c]] && q.d[c].id == id && q.d[c].creator;
  }

  lemma BeginsAligned(age: int, now: int, off: int)
    requires 0 < age && age * 60 <= now
    ensures var id := Instant(age, now, off, now);
            0 < id && Aligned(id, off, age * 60)
  {
    InstantIsRecent(age, now, off, now);
  }

  lemma EmptyWhenNone(m: Mgr)
    requires Lists(m) && m.n <= 0
    ensures m.d.Keys == {}
  {
    assert m.byName == [] && forall h :: h in m.byName <==> h in m.d;
  }

  lemma ChangeShrinks(m: Mgr, q: Mgr, c: Change)
    requires Changed(m, q, c) && !c.Added? && q.age == m.age
    ensures Shrunk(m, q)
  {
  }

  /** Nobody is left who could give a name. */
  lemma DeleteAhead(s: State, off: int)
    requires Inv(s.m) && Orderly(s.m, off) && Enabled(s, DeleteStep)
    ensures Orderly(Apply(s, DeleteStep).m, off) && Ahead(Apply(s, DeleteStep).m)
  {
    DeleteChanged(s);
    ChangeShrinks(s.m, DeleteCreator(s.m), StepChange(s, DeleteStep));
    ShrunkOrderly(s.m, DeleteCreator(s.m), off);
    FirstCreatorFacts(s.m.byName, s.m.d);
    assert forall h :: h in s.m.byName <==> h in s.m.d;
  }

  lemma OwnStepUnique(s: State, st: Step, off: int)
    requires Inv(s.m) && Unique(s, off) && Enabled(s, st) && OwnStep(st) && Named(s, st, off)
    requires !st.TickStep? && !st.DeleteStep?
    ensures Unique(Apply(s, st), off)
  {
    StepClock(s, st);
    if StepChange(s, st).Added? {
      AddingUnique(s, st, off);
    } else {
      StepChanged(s, st);
      ChangeShrinks(s.m, Apply(s, st).m, StepChange(s, st));
      ShrunkOrderly(s.m, Apply(s, st).m, off);
      if Doomed(s) { StaysDoomed(s, st); }
    }
  }

  /** Once doomed, the creator is deleted before anything fires. */
  lemma StaysDoomed(s: State, st: Step)
    requires Inv(s.m) && Enabled(s, st) && Doomed(s) && !st.DeleteStep?
    ensures Doomed(Apply(s, st))
  {
    match st
    case CheckStep => WritableFacts(s.m.byName, s.m.d);
    case SignalStep => SignalWakesAll(s.m);
    case _ =>
  }

  lemma AddingUnique(s: State, st: Step, off: int)
    requires Inv(s.m) && Unique(s, off) && Enabled(s, st) && OwnStep(st) && Named(s, st, off)
    requires StepChange(s, st).Added?
    ensures Unique(Apply(s, st), off)
  {
    if st.FireStep? {
      assert DescOk(s.m.d[st.h], s.m.age);
      CreateOrderly(s.m, st.h, st.born, st.name, off);
    } else {
      EmptyWhenNone(s.m);
      NewCreatorOrderly(s.m, st.c, st.id, st.name, off);
    }
  }

  /** Every step keeps names distinct and ids ahead of them. */
  lemma StepUnique(s: State, st: Step, off: int)
    requires Inv(s.m) && Unique(s, off) && Enabled(s, st) && Named(s, st, off)
    ensures Unique(Apply(s, st), off)
  {
    if st.DeleteStep? {
      DeleteAhead(s, off);
    } else if st.TickStep? || !OwnStep(st) {
      CountStepUnique(s, st, off);
    } else {
      OwnStepUnique(s, st, off);
    }
  }

  lemma RecountedUnique(s: State, t: State, h: Handle, k: int, off: int)
    requires Unique(s, off) && h in s.m.d && t.m == AddUsers(s.m, h, k) && t.pc == s.pc
    ensures Unique(t, off)
  {
    ShrunkOrderly(s.m, t.m, off);
  }

  lemma CountStepUnique(s: State, st: Step, off: int)
    requires Inv(s.m) && Unique(s, off) && Enabled(s, st) && Named(s, st, off) && (st.TickStep? || !OwnStep(st))
    ensures Unique(Apply(s, st), off)
  {
    match st
    case TickStep(now) => ShrunkOrderly(s.m, s.m.(now := now), off);
    case AcquireStep => RecountedUnique(s, Apply(s, st), Writable(s.m.byName, s.m.d).value, 1, off);
    case ReleaseStep(h) => RecountedUnique(s, Apply(s, st), h, -1, off);
  }
}
