/** How readers are given bakers.  A reader puts its request in a queue and waits on its own condition; one worker
    thread takes the requests in turn, waits for an idle READING baker, and wakes the reader.  Every condition is
    signalled at most when it is thought to matter, so what has to be shown is that no signal is ever missed. */
module Requests {
  import opened Ordered
  import BP = BakerPool

  type Req = nat  // a request, and the id of the thread that made it

  datatype Worker =
    | Looking            // before it locks the queue
    | WaitQueue          // waits on hReqQueue's condition
    | Allocating(r: Req) // before it looks at the valid list
    | WaitPool(r: Req)   // waits on hBakTab's condition

  /** `woken`: the condition the worker waits on has been signalled.  `waiting`: readers waiting on their own.
      `arrived` and `served` are all requests ever made and answered, in order. */
  datatype State = State(pool: BP.Pool, queue: seq<Req>, worker: Worker, woken: bool, waiting: set<Req>,
                         held: map<Req, nat>, arrived: seq<Req>, served: seq<Req>)

  datatype Step =
    | AskStep(r: Req)
    | LookStep
    | WakeStep
    | AllocStep
    | RetryStep
    | FreeStep(r: Req)
    | MoveStep(ids: seq<nat>)
    | AlterStep(timestamp: int)
    | WToRStep

  /** Allocations go through the pool's own guard; WakeStep needs a request to take (WakeFindsOne). */
  ghost predicate Enabled(s: State, st: Step) {
    match st
    case AskStep(r) => r !in s.arrived
    case LookStep => s.worker.Looking?
    case WakeStep => s.worker.WaitQueue? && s.woken && s.queue != []
    case AllocStep => s.worker.Allocating? && (s.pool.valid.nodes != [] ==> s.pool.valid.nodes[0] < |s.pool.infos|)
    case RetryStep => s.worker.WaitPool? && s.woken
    case FreeStep(r) => r in s.held && r !in s.waiting && s.held[r] < |s.pool.infos|
    case MoveStep(ids) => BP.Inv(s.pool) && BP.Movable(s.pool, ids)
    case AlterStep(_) => true
    case WToRStep => true
  }

  /** pthread_cond_signal on the condition of hBakTab. */
  function SignalPool(s: State, signal: bool): State {
    if signal && s.worker.WaitPool? then s.(woken := true) else s
  }

  ghost function Apply(s: State, st: Step): State
    requires Enabled(s, st)
  {
    match st
    case AskStep(r) =>
      s.(queue := s.queue + [r], arrived := s.arrived + [r], waiting := s.waiting + {r},
         woken := s.woken || (s.queue == [] && s.worker.WaitQueue?))
    case LookStep =>
      if s.queue == [] then s.(worker := WaitQueue, woken := false)
      else s.(worker := Allocating(s.queue[0]), queue := s.queue[1..])
    case WakeStep => s.(worker := Allocating(s.queue[0]), queue := s.queue[1..])
    case AllocStep =>
      if s.pool.valid.nodes == [] then s.(worker := WaitPool(s.worker.r), woken := false)
      else
        var r, k := s.worker.r, s.pool.valid.nodes[0];
        s.(pool := BP.Alloc(s.pool, r), held := s.held[r := k], waiting := s.waiting - {r},
           served := s.served + [r], worker := Looking)
    case RetryStep => s.(worker := Allocating(s.worker.r))
    case FreeStep(r) =>
      var k := s.held[r];
      SignalPool(s.(pool := BP.Free(s.pool, k), held := s.held - {r}),
                 s.pool.infos[k].reading && s.pool.valid.nodes == [])
    case MoveStep(ids) => s.(pool := BP.Move(s.pool, ids))
    case AlterStep(timestamp) => SignalPool(s.(pool := BP.Alter(s.pool, timestamp)), true)
    case WToRStep =>
      SignalPool(s.(pool := BP.WToR(s.pool)), s.pool.valid.nodes == [] && s.pool.backup.nodes != [])
  }

  // ----- the invariant

  function InHand(w: Worker): seq<Req> {
    if w.Allocating? || w.WaitPool? then [w.r] else []
  }

  /** Each request is answered, in the worker's hand, or queued, once and in order of arrival; and exactly those not
      answered are waited for. */
  ghost predicate InTurn(s: State) {
    && NoDup(s.arrived) && s.arrived == s.served + InHand(s.worker) + s.queue
    && (forall r :: r in s.waiting <==> r in InHand(s.worker) || r in s.queue)
  }

  /** Nobody sleeps through a signal. */
  ghost predicate Awake(s: State) {
    && (s.worker.WaitQueue? ==> (s.woken <==> s.queue != []))
    && (s.worker.WaitPool? && !s.woken ==> s.pool.valid.nodes == [])
  }

  /** Whoever was answered holds a baker of its own until it frees it. */
  ghost predicate Owned(s: State) {
    && (forall r :: r in s.held ==> r in s.served && s.held[r] < |s.pool.infos|
                                    && s.pool.infos[s.held[r]].busy && s.pool.infos[s.held[r]].thrId == r)
    && (forall q, r :: q in s.held && r in s.held && q != r ==> s.held[q] != s.held[r])
  }

  ghost predicate Inv(s: State) {
    BP.Inv(s.pool) && InTurn(s) && Awake(s) && Owned(s)
  }

  lemma AskInTurn(s: State, r: Req)
    requires InTurn(s) && r !in s.arrived
    ensures InTurn(Apply(s, AskStep(r)))
  {
    assert (s.served + InHand(s.worker) + s.queue) + [r] == s.served + InHand(s.worker) + (s.queue + [r]);
  }

  lemma TakeInTurn(s: State, t: State)
    requires InTurn(s) && s.queue != [] && InHand(s.worker) == []
    requires t == s.(worker := Allocating(s.queue[0]), queue := s.queue[1..])
    ensures InTurn(t)
  {
    assert s.queue == [s.queue[0]] + s.queue[1..];
    assert s.served + [] + s.queue == s.served + [s.queue[0]] + s.queue[1..];
  }

  lemma AnswerInTurn(s: State, t: State, r: Req)
    requires InTurn(s) && s.worker.Allocating? && r == s.worker.r
    requires t.arrived == s.arrived && t.queue == s.queue && t.worker == Looking
    requires t.served == s.served + [r] && t.waiting == s.waiting - {r}
    ensures InTurn(t)
  {
    assert t.served + [] + t.queue == s.arrived;
    assert s.arrived[|s.served|] == r;
    forall i | 0 <= i < |s.queue| ensures s.queue[i] != r {
      assert s.arrived[|s.served| + 1 + i] == s.queue[i];
    }
  }

  lemma OnceOnly(s: State, r: Req)
    requires InTurn(s) && r in s.waiting
    ensures r !in s.served
  {
    var rest := InHand(s.worker) + s.queue;
    assert s.arrived == s.served + rest && r in rest;
    var i :| 0 <= i < |rest| && rest[i] == r;
    assert s.arrived[|s.served| + i] == r;
    assert forall j :: 0 <= j < |s.served| ==> s.arrived[j] == s.served[j];
  }

  /** The bakers of others are not the one that is idle. */
  lemma AllocOwned(s: State)
    requires Inv(s) && s.worker.Allocating? && s.pool.valid.nodes != []
    ensures Owned(Apply(s, AllocStep)) && BP.Inv(Apply(s, AllocStep).pool)
  {
    BP.AllocInv(s.pool, s.worker.r);
    OnceOnly(s, s.worker.r);
    assert s.pool.valid.nodes[0] in s.pool.valid.nodes;
  }

  lemma FreeInv(s: State, r: Req)
    requires Inv(s) && Enabled(s, FreeStep(r))
    ensures Inv(Apply(s, FreeStep(r)))
  {
    assert BP.Inv(Apply(s, FreeStep(r)).pool) by { BP.FreeInv(s.pool, s.held[r]); }
    FreeOwned(s, r);
  }

  lemma FreeOwned(s: State, r: Req)
    requires Owned(s) && Enabled(s, FreeStep(r))
    ensures Owned(Apply(s, FreeStep(r)))
  {
    forall q | q in s.held && q != r ensures s.held[q] != s.held[r] {}
  }

  /** The exporter's steps touch neither who holds what nor who waits. */
  lemma OwnedKept(s: State, t: State)
    requires Owned(s) && t.held == s.held && t.served == s.served && |t.pool.infos| == |s.pool.infos|
    requires forall k :: 0 <= k < |s.pool.infos| ==>
               t.pool.infos[k].busy == s.pool.infos[k].busy && t.pool.infos[k].thrId == s.pool.infos[k].thrId
    ensures Owned(t)
  {
  }

  lemma MoveInv(s: State, ids: seq<nat>)
    requires Inv(s) && Enabled(s, MoveStep(ids))
    ensures Inv(Apply(s, MoveStep(ids)))
  {
    var q := BP.Move(s.pool, ids);
    OwnedKept(s, Apply(s, MoveStep(ids)));
    assert forall k :: k in q.valid.nodes ==> k in s.pool.valid.nodes;
    assert q.valid.nodes != [] ==> q.valid.nodes[0] in q.valid.nodes;
  }

  lemma WToRInv(s: State)
    requires Inv(s)
    ensures Inv(Apply(s, WToRStep))
  {
    var t := Apply(s, WToRStep);
    assert BP.Inv(t.pool) by { BP.WToRInv(s.pool); }
    assert Owned(t) by { OwnedKept(s, t); }
    assert InTurn(t) && Awake(t);
  }

  /** Every step of readers, worker and exporter keeps everything. */
  lemma StepInv(s: State, st: Step)
    requires Inv(s) && Enabled(s, st)
    ensures Inv(Apply(s, st))
  {
    match st
    case AskStep(r) => AskInTurn(s, r);
    case LookStep => if s.queue != [] { TakeInTurn(s, Apply(s, st)); }
    case WakeStep => TakeInTurn(s, Apply(s, st));
    case AllocStep =>
      if s.pool.valid.nodes != [] {
        AllocOwned(s);
        AnswerInTurn(s, Apply(s, st), s.worker.r);
      }
    case RetryStep =>
    case FreeStep(r) => FreeInv(s, r);
    case MoveStep(ids) => MoveInv(s, ids);
    case AlterStep(timestamp) => BP.AlterInv(s.pool, timestamp);
    case WToRStep => WToRInv(s);
  }

  // ----- what it gives

  /** When the worker is woken there is a request: the head it takes without looking again is never null. */
  lemma WakeFindsOne(s: State)
    requires Inv(s) && s.worker.WaitQueue? && s.woken
    ensures Enabled(s, WakeStep)
  {
  }

  /** As long as a request is unanswered the worker can go on, unless there is no idle READING baker. */
  lemma NeverStuck(s: State)
    requires Inv(s) && s.waiting != {}
    ensures Enabled(s, LookStep) || Enabled(s, WakeStep) || Enabled(s, AllocStep) || Enabled(s, RetryStep)
            || (s.worker.WaitPool? && s.pool.valid.nodes == [])
  {
    var r :| r in s.waiting;
    if s.worker.Allocating? && s.pool.valid.nodes != [] {
      assert s.pool.valid.nodes[0] < |s.pool.infos|;
    }
  }

  function Unanswered(s: State): nat { |InHand(s.worker)| + |s.queue| }

  /** How near the worker is to looking at the valid list. */
  function Near(w: Worker): nat {
    if w.Allocating? then 1 else 2
  }

  predicate WorkerStep(st: Step) { st.LookStep? || st.WakeStep? || st.AllocStep? || st.RetryStep? }

  /** Every step of the worker answers a request, or brings it nearer to that with a request in its hand; unless there is
      nothing to take, and then, and only then, it waits on the condition that is signalled when there is. */
  lemma WorkerGetsOn(s: State, st: Step)
    requires Inv(s) && Enabled(s, st) && WorkerStep(st)
    ensures var t := Apply(s, st);
            && t.arrived == s.arrived
            && if st.LookStep? && s.queue == [] then t == s.(worker := WaitQueue, woken := false)
               else if st.AllocStep? && s.pool.valid.nodes == [] then t == s.(worker := WaitPool(s.worker.r), woken := false)
               else Unanswered(t) < Unanswered(s) ||
                    (Unanswered(t) == Unanswered(s) && Near(t.worker) < Near(s.worker) && t.pool == s.pool)
  {
  }

  /** The request in hand is the longest waiting one, and it is given the baker that has been idle for longest. */
  lemma AnswerExactly(s: State)
    requires Inv(s) && s.worker.Allocating? && s.pool.valid.nodes != []
    ensures Enabled(s, AllocStep)
    ensures var t, r, k := Apply(s, AllocStep), s.worker.r, s.pool.valid.nodes[0];
            && t.served == s.served + [r] && r !in t.waiting && r in s.waiting
            && t.held == s.held[r := k] && t.queue == s.queue
            && |s.served| < |s.arrived| && r == s.arrived[|s.served|]
            && k < |t.pool.infos| && t.pool.infos[k].busy && t.pool.infos[k].thrId == r
            && s.pool.valid.nodes == [k] + t.pool.valid.nodes
  {
    BP.AllocInv(s.pool, s.worker.r);
  }

  /** A baker that is given back is idle again, behind all others, and a worker that waits for one is woken. */
  lemma FreeExactly(s: State, r: Req)
    requires Inv(s) && Enabled(s, FreeStep(r))
    ensures var t, k := Apply(s, FreeStep(r)), s.held[r];
            && r !in t.held && !t.pool.infos[k].busy
            && (s.pool.infos[k].reading ==>
                  t.pool.valid.nodes == s.pool.valid.nodes + [k] && (s.worker.WaitPool? ==> t.woken))
  {
    BP.FreeInv(s.pool, s.held[r]);
  }

  ghost predicate StepAt(ss: seq<State>, sts: seq<Step>, i: nat) {
    i + 1 < |ss| && i < |sts| && Enabled(ss[i], sts[i]) && ss[i + 1] == Apply(ss[i], sts[i])
  }

  ghost predicate IsRun(ss: seq<State>, sts: seq<Step>) {
    |ss| == |sts| + 1 && Inv(ss[0]) && forall i: nat :: i < |sts| ==> StepAt(ss, sts, i)
  }

  /** What was answered is a prefix of what was asked, so no request overtakes another, and nobody who waits has been
      answered already. */
  ghost predicate InOrder(s: State) {
    s.served <= s.arrived && forall r :: r in s.waiting ==> r in s.arrived && r !in s.served
  }

  lemma TurnIsOrder(s: State)
    requires InTurn(s)
    ensures InOrder(s)
  {
    assert s.arrived == s.served + (InHand(s.worker) + s.queue);
    forall r | r in s.waiting ensures r in s.arrived && r !in s.served {
      OnceOnly(s, r);
    }
  }

  lemma {:induction false} ServedInOrder(ss: seq<State>, sts: seq<Step>, i: nat)
    requires IsRun(ss, sts) && i < |ss|
    ensures Inv(ss[i]) && InOrder(ss[i])
  {
    if i > 0 {
      ServedInOrder(ss, sts, i - 1);
      assert StepAt(ss, sts, i - 1);
      StepInv(ss[i - 1], sts[i - 1]);
    }
    TurnIsOrder(ss[i]);
  }
}
