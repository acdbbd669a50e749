/** The block device backend at work.

    One worker thread takes pending requests, runs their completion callbacks outside the lock and
    sleeps on a condition variable.  `Apply` interleaves it with callers that issue and cancel
    requests, from inside callbacks too. */
module BlockWorker {
  import opened Wrappers
  import opened BlockQueue

  // ---------------------------------------------------------------------------
  // The worker and its callers
  // ---------------------------------------------------------------------------

  datatype Worker =
    | Awake                       // about to take the lock
    | Processing(be: nat)         // doing the transfer, outside the lock
    | InCallback(be: nat)         // status Done, running the completion callback
    | Asleep(signalled: bool)     // in the condition wait
    | Exited

  /** `outstanding` holds the requests accepted whose callback has not begun and that were not
      cancelled; `refusals` counts the requests refused with E2BIG. */
  datatype State = State(q: Queues, worker: Worker, outstanding: set<nat>, refusals: nat, closing: bool)

  datatype Step =
    | Issue(req: Req, op: Op)
    | Withdraw(id: nat)
    | Turn
    | BeginCallback
    | SpuriousWakeup
    | SetClosing
    | BroadcastClosing

  predicate Enabled(s: State, step: Step) {
    match step
    case Issue(req, _) => req.id !in s.outstanding
    case Withdraw(_) => true
    case Turn => s.worker.Awake? || s.worker.InCallback? || s.worker == Asleep(true)
    case BeginCallback => s.worker.Processing?
    case SpuriousWakeup => s.worker == Asleep(false)
    case SetClosing => true
    case BroadcastClosing => s.closing
  }

  /** A cancellation of `id` would find it pending. */
  predicate IsPending(s: State, id: nat) {
    FindReq(s.q.elems, s.q.pendq, id) < |s.q.pendq|
  }

  function Signal(w: Worker): Worker {
    if w.Asleep? then Asleep(true) else w
  }

  /** The queues when the worker has taken the lock and finished what it was processing. */
  ghost function Settled(s: State): Queues
    requires Inv(s)
  {
    Completed(s.q, if s.worker.InCallback? then Some(s.worker.be) else None)
  }

  ghost function Issued(s: State, req: Req, op: Op): State
    requires Inv(s)
  {
    if s.q.freeq == [] then s.(refusals := s.refusals + 1)
    else
      assert s.q.freeq[0] in s.q.freeq;
      var q := EnqueueSpec(s.q, req, op);
      var runnable := q.elems[s.q.freeq[0]].status.Pend?;
      s.(q := q, outstanding := s.outstanding + {req.id}, worker := if runnable then Signal(s.worker) else s.worker)
  }

  function Withdrawn(s: State, id: nat): State {
    var i := FindReq(s.q.elems, s.q.pendq, id);
    if i < |s.q.pendq| then s.(q := CompleteSpec(s.q, false, i), outstanding := s.outstanding - {id}) else s
  }

  ghost function Turned(s: State): State
    requires Inv(s)
  {
    var q := Settled(s);
    var i := FirstPend(q.elems, q.pendq);
    if i < |q.pendq| then s.(q := StartSpec(q, i), worker := Processing(q.pendq[i]))
    else s.(q := q, worker := if s.closing then Exited else Asleep(false))
  }

  function CalledBack(s: State): State
    requires s.worker.Processing? && s.worker.be < |s.q.elems|
  {
    var be := s.worker.be;
    s.(q := s.q.(elems := s.q.elems[be := s.q.elems[be].(status := Done)]),
       worker := InCallback(be), outstanding := s.outstanding - {IdOf(s.q.elems, be)})
  }

  ghost function Apply(s: State, step: Step): State
    requires Inv(s) && Enabled(s, step)
  {
    match step
    case Issue(req, op) => Issued(s, req, op)
    case Withdraw(id) => Withdrawn(s, id)
    case Turn => Turned(s)
    case BeginCallback => CalledBack(s)
    case SpuriousWakeup => s.(worker := Asleep(true))
    case SetClosing => s.(closing := true)
    case BroadcastClosing => s.(worker := Signal(s.worker))
  }

  function IdOf(elems: seq<Elem>, i: nat): nat {
    if i < |elems| && elems[i].req.Some? then elems[i].req.value.id else 0
  }

  /** The identities of the requests in a queue. */
  function IdBag(elems: seq<Elem>, s: seq<nat>): multiset<nat> {
    if s == [] then multiset{} else multiset{IdOf(elems, s[0])} + IdBag(elems, s[1..])
  }

  /** Accepted requests whose callback has not begun: pending ones and the one being transferred. */
  function LiveBag(s: State): multiset<nat> {
    IdBag(s.q.elems, s.q.pendq) +
    if s.worker.Processing? then multiset{IdOf(s.q.elems, s.worker.be)} else multiset{}
  }

  ghost predicate WorkerAgrees(s: State) {
    match s.worker
    case Processing(be) => s.q.busyq == [be] && be < |s.q.elems| && s.q.elems[be].status.Busy?
    case InCallback(be) => s.q.busyq == [be] && be < |s.q.elems| && s.q.elems[be].status.Done?
    case _ => s.q.busyq == []
  }

  /** The worker is never asleep and unsignalled while a request is pending. */
  predicate NeverMissesWork(s: State) {
    s.worker == Asleep(false) ==> s.q.pendq == []
  }

  ghost predicate Inv(s: State) {
    && Valid(s.q) && WorkerAgrees(s) && NeverMissesWork(s)
    && LiveBag(s) == multiset(s.outstanding)
  }

  // ---------------------------------------------------------------------------
  // The bag of live requests
  // ---------------------------------------------------------------------------

  lemma {:induction false} IdBagSame(elems: seq<Elem>, elems': seq<Elem>, s: seq<nat>)
    requires forall x <- s :: IdOf(elems', x) == IdOf(elems, x)
    ensures IdBag(elems', s) == IdBag(elems, s)
  {
    if s != [] {
      assert s[0] in s;
      IdBagSame(elems, elems', s[1..]);
    }
  }

  lemma {:induction false} IdBagAppend(elems: seq<Elem>, s: seq<nat>, x: nat)
    ensures IdBag(elems, s + [x]) == IdBag(elems, s) + multiset{IdOf(elems, x)}
  {
    if s == [] {
      assert s + [x] == [x];
    } else {
      assert (s + [x])[1..] == s[1..] + [x];
      IdBagAppend(elems, s[1..], x);
    }
  }

  lemma {:induction false} IdBagRemove(elems: seq<Elem>, s: seq<nat>, i: nat)
    requires i < |s|
    ensures IdBag(elems, s) == IdBag(elems, RemoveAt(s, i)) + multiset{IdOf(elems, s[i])}
  {
    if i == 0 {
      assert RemoveAt(s, 0) == s[1..];
    } else {
      assert RemoveAt(s, i)[1..] == RemoveAt(s[1..], i - 1);
      IdBagRemove(elems, s[1..], i - 1);
    }
  }

  lemma {:induction false} IdBagSize(elems: seq<Elem>, s: seq<nat>)
    ensures |IdBag(elems, s)| == |s|
  {
    if s != [] {
      IdBagSize(elems, s[1..]);
    }
  }

  lemma PartitionSize(q: Queues)
    requires Valid(q)
    ensures |q.freeq| + |q.pendq| + |q.busyq| == MAX_REQUESTS
  {
    OnceSize(|q.elems|);
    hide StatusesAgree, BlockersPresent, Once;
    assert |All(q)| == |q.freeq| + |q.pendq| + |q.busyq|;
  }

  lemma {:induction false} OnceSize(n: nat)
    ensures |Once(n)| == n
  {
    if n > 0 {
      OnceSize(n - 1);
    }
  }

  // ---------------------------------------------------------------------------
  // Every step keeps the invariant
  // ---------------------------------------------------------------------------

  lemma EnqueueIds(q: Queues, req: Req, op: Op)
    requires Valid(q) && q.freeq != []
    ensures q.freeq[0] < |q.elems|
    ensures
      var q' := EnqueueSpec(q, req, op);
      && IdBag(q'.elems, q'.pendq) == IdBag(q.elems, q.pendq) + multiset{req.id}
      && (forall x <- q.busyq :: x < |q.elems| ==> q'.elems[x] == q.elems[x])
  {
    hide Valid, EndsAt, IdBag;
    EnqueueMoves(q, req, op);
    var q' := EnqueueSpec(q, req, op);
    IdBagSame(q.elems, q'.elems, q.pendq);
    IdBagAppend(q'.elems, q.pendq, q.freeq[0]);
  }

  lemma IssueKeeps(s: State, req: Req, op: Op)
    requires Inv(s) && req.id !in s.outstanding
    ensures Inv(Issued(s, req, op))
  {
    hide Valid, IdBag, EndsAt, Once;
    if s.q.freeq != [] {
      EnqueueIds(s.q, req, op);
      EnqueueValid(s.q, req, op);
      var s' := Issued(s, req, op);
      assert multiset(s'.outstanding) == multiset(s.outstanding) + multiset{req.id};
      NothingEnds(s.q.elems, req.offset);
      if s.worker.Processing? || s.worker.InCallback? {
        assert s.q.busyq[0] in s.q.busyq;
      }
    }
  }

  lemma NothingEnds(elems: seq<Elem>, offset: int)
    ensures !EndsAt(elems, [], offset)
  {
  }

  lemma Disjoint(q: Queues)
    requires Partition(q)
    ensures forall x <- q.busyq :: x !in q.pendq
  {
    forall x | x in q.busyq
      ensures x !in q.pendq
    {
      OnePlace(q, x);
    }
  }

  lemma FinishIds(q: Queues, be: nat, pendq: seq<nat>, busyq: seq<nat>)
    requires be < |q.elems| && be !in pendq && be !in busyq && forall x <- busyq :: x !in pendq && x < |q.elems|
    ensures
      var q' := Finish(q, be, pendq, busyq);
      && (forall x <- q'.pendq :: IdOf(q'.elems, x) == IdOf(q.elems, x))
      && (forall x <- q'.busyq :: x < |q'.elems| && x < |q.elems| && q'.elems[x] == q.elems[x])
  {
  }

  lemma CompleteIds(q: Queues, busy: bool, i: nat)
    requires Valid(q) && CanComplete(q, busy, i)
    ensures
      var q' := CompleteSpec(q, busy, i);
      && (forall x <- q'.pendq :: IdOf(q'.elems, x) == IdOf(q.elems, x))
      && (forall x <- q'.busyq :: x < |q'.elems| && x < |q.elems| && q'.elems[x] == q.elems[x])
  {
    var be := if busy then q.busyq[i] else q.pendq[i];
    var pendq := if busy then q.pendq else RemoveAt(q.pendq, i);
    var busyq := if busy then RemoveAt(q.busyq, i) else q.busyq;
    hide Partition, BlockersPresent, TakenOut, RemoveAt, Finish, IdOf;
    Taken(q, busy, i);
    TakenApart(q, be, pendq, busyq);
    TakenWithin(q, be, pendq, busyq);
    Disjoint(q);
    FinishIds(q, be, pendq, busyq);
    assert CompleteSpec(q, busy, i) == Finish(q, be, pendq, busyq);
  }

  lemma CompleteBag(q: Queues, i: nat)
    requires Valid(q) && CanComplete(q, false, i)
    ensures
      var q' := CompleteSpec(q, false, i);
      IdBag(q.elems, q.pendq) == IdBag(q'.elems, q'.pendq) + multiset{IdOf(q.elems, q.pendq[i])}
  {
    CompleteIds(q, false, i);
    hide Valid, RemoveAt;
    IdBagSame(q.elems, CompleteSpec(q, false, i).elems, RemoveAt(q.pendq, i));
    IdBagRemove(q.elems, q.pendq, i);
  }

  lemma WithdrawKeeps(s: State, id: nat)
    requires Inv(s)
    ensures Inv(Withdrawn(s, id))
  {
    hide Valid, RemoveAt, FindReq, IdBag, Unblock;
    var i := FindReq(s.q.elems, s.q.pendq, id);
    if i < |s.q.pendq| {
      var s' := Withdrawn(s, id);
      CompleteValid(s.q, false, i);
      CompleteIds(s.q, false, i);
      CompleteBag(s.q, i);
      if s.worker.Processing? || s.worker.InCallback? {
        assert s.q.busyq[0] in s.q.busyq;
      }
      BagWithout(s.outstanding, id, LiveBag(s'));
    }
  }

  lemma BagWithout(s: set<nat>, id: nat, rest: multiset<nat>)
    requires multiset(s) == rest + multiset{id}
    ensures id in s && multiset(s - {id}) == rest
  {
    assert id in multiset(s);
    assert multiset(s - {id}) == multiset(s) - multiset{id};
  }

  lemma SettledKeeps(s: State)
    requires Inv(s) && Enabled(s, Turn)
    ensures Valid(Settled(s)) && Settled(s).busyq == []
    ensures IdBag(Settled(s).elems, Settled(s).pendq) == multiset(s.outstanding)
  {
    hide Valid, IdBag, Unblock;
    if s.worker.InCallback? {
      CompleteValid(s.q, true, 0);
      CompleteIds(s.q, true, 0);
      IdBagSame(s.q.elems, Settled(s).elems, s.q.pendq);
    }
  }

  /** With nothing busy, the request at the head of the pending queue is not blocked. */
  lemma HeadRuns(q: Queues)
    requires Valid(q) && q.busyq == [] && q.pendq != []
    ensures FirstPend(q.elems, q.pendq) == 0
  {
    hide Partition;
    assert q.pendq[0] in q.pendq;
    NothingEnds(q.elems, q.elems[q.pendq[0]].req.value.offset);
  }

  lemma StartIds(q: Queues)
    requires Valid(q) && q.pendq != [] && q.pendq[0] < |q.elems|
    ensures
      var q' := StartSpec(q, 0);
      IdBag(q.elems, q.pendq) == IdBag(q'.elems, q'.pendq) + multiset{IdOf(q'.elems, q.pendq[0])}
  {
    hide Valid, RemoveAt, IdBag;
    StartMoves(q, 0);
    IdBagRemove(q.elems, q.pendq, 0);
    IdBagSame(q.elems, StartSpec(q, 0).elems, RemoveAt(q.pendq, 0));
  }

  lemma TurnKeeps(s: State)
    requires Inv(s) && Enabled(s, Turn)
    ensures Inv(Turned(s)) && Turned(s).q.pendq == (if Settled(s).pendq != [] then Settled(s).pendq[1..] else [])
    ensures Turned(s).worker == (if Settled(s).pendq != [] then Processing(Settled(s).pendq[0])
                                 else if s.closing then Exited else Asleep(false))
  {
    hide Valid, FirstPend, Settled, IdBag;
    SettledKeeps(s);
    var q := Settled(s);
    if q.pendq != [] {
      HeadRuns(q);
      StartValid(q, 0);
      StartIds(q);
    }
  }

  lemma DoneValid(q: Queues, be: nat)
    requires Valid(q) && be in q.busyq && be < |q.elems|
    ensures Valid(q.(elems := q.elems[be := q.elems[be].(status := Done)]))
  {
    var q' := q.(elems := q.elems[be := q.elems[be].(status := Done)]);
    OnePlace(q, be);
    assert be !in q.pendq && be !in q.freeq;
    assert All(q') == All(q);
    hide Partition;
    forall i: nat | i < |q'.pendq| && q'.pendq[i] in q.pendq && q'.elems[q'.pendq[i]].status.Block?
      ensures HasBlocker(q', i)
    {
      assert HasBlocker(q, i);
      var offset := q.elems[q.pendq[i]].req.value.offset;
      if EndsAt(q.elems, q.busyq, offset) {
        EndsAtSame(q.elems, q'.elems, q.busyq, q.busyq, offset);
      } else {
        EndsAtSame(q.elems, q'.elems, q.pendq[..i], q.pendq[..i], offset);
      }
    }
  }

  lemma BeginCallbackKeeps(s: State)
    requires Inv(s) && s.worker.Processing?
    ensures Inv(CalledBack(s))
  {
    var be := s.worker.be;
    assert be in s.q.busyq;
    DoneValid(s.q, be);
    var s' := CalledBack(s);
    IdBagSame(s.q.elems, s'.q.elems, s.q.pendq);
    hide Valid, IdBag;
    BagWithout(s.outstanding, IdOf(s.q.elems, be), LiveBag(s'));
  }

  lemma StepKeeps(s: State, step: Step)
    requires Inv(s) && Enabled(s, step)
    ensures Inv(Apply(s, step))
  {
    hide Valid, IdBag, Issued, Withdrawn, Turned, CalledBack;
    match step
    case Issue(req, op) => IssueKeeps(s, req, op);
    case Withdraw(id) => WithdrawKeeps(s, id);
    case Turn => TurnKeeps(s);
    case BeginCallback => BeginCallbackKeeps(s);
    case _ =>
  }

  // ---------------------------------------------------------------------------
  // Whole runs
  // ---------------------------------------------------------------------------

  /** What opening a backend leaves behind: all elements free and the worker about to start. */
  ghost predicate Init(s: State) {
    && Valid(s.q) && s.q.pendq == [] && s.q.busyq == []
    && s.worker.Awake? && s.outstanding == {} && s.refusals == 0 && !s.closing
  }

  ghost predicate Run(s: State, steps: seq<Step>, s': State)
    requires Inv(s)
    decreases |steps|
  {
    if steps == [] then s == s'
    else Enabled(s, steps[0]) && (StepKeeps(s, steps[0]); Run(Apply(s, steps[0]), steps[1..], s'))
  }

  /** The callers issue a request only while fewer than the queue size are outstanding; a request
      stops being outstanding when its callback begins, so a callback may issue the next one. */
  ghost predicate Polite(s: State, steps: seq<Step>)
    requires Inv(s)
    decreases |steps|
  {
    steps != [] ==>
      && (steps[0].Issue? ==> |s.outstanding| < QueueSize())
      && (Enabled(s, steps[0]) ==> (StepKeeps(s, steps[0]); Polite(Apply(s, steps[0]), steps[1..])))
  }

  function QueueSize(): nat {
    MAX_REQUESTS - 1
  }

  lemma InitInv(s: State)
    requires Init(s)
    ensures Inv(s)
  {
  }

  lemma {:induction false} RunKeeps(s: State, steps: seq<Step>, s': State)
    requires Inv(s) && Run(s, steps, s')
    ensures Inv(s')
    decreases |steps|
  {
    if steps != [] {
      StepKeeps(s, steps[0]);
      RunKeeps(Apply(s, steps[0]), steps[1..], s');
    }
  }

  /** In every run the queues partition the elements, every blocked request has its predecessor
      ahead of it, and the worker never sleeps on a pending request. */
  lemma QueuesStaySound(init: State, steps: seq<Step>, s: State)
    requires Init(init) && (InitInv(init); Run(init, steps, s))
    ensures Partition(s.q) && StatusesAgree(s.q) && BlockersPresent(s.q)
    ensures NeverMissesWork(s)
    ensures forall id :: id in s.outstanding <==> id in LiveBag(s)
  {
    InitInv(init);
    RunKeeps(init, steps, s);
    assert forall id :: id in s.outstanding <==> id in multiset(s.outstanding);
  }

  lemma RoomForOneMore(s: State)
    requires Inv(s) && |s.outstanding| < QueueSize()
    ensures s.q.freeq != []
  {
    PartitionSize(s.q);
    IdBagSize(s.q.elems, s.q.pendq);
    assert |multiset(s.outstanding)| == |s.outstanding|;
    assert |LiveBag(s)| == |s.q.pendq| + if s.worker.Processing? then 1 else 0;
  }

  /** Callers that keep within the queue size never see E2BIG. */
  lemma {:induction false} NeverRefused(s: State, steps: seq<Step>, s': State)
    requires Inv(s) && Run(s, steps, s') && Polite(s, steps)
    ensures s'.refusals == s.refusals
    decreases |steps|
  {
    hide Inv;
    if steps != [] {
      StepKeeps(s, steps[0]);
      if steps[0].Issue? {
        RoomForOneMore(s);
      }
      hide Withdrawn, Turned, CalledBack;
      NeverRefused(Apply(s, steps[0]), steps[1..], s');
    }
  }

  /** From the opening of a backend on, polite callers are never refused. */
  lemma PoliteCallersServed(init: State, steps: seq<Step>, s: State)
    requires Init(init) && (InitInv(init); Run(init, steps, s) && Polite(init, steps))
    ensures s.refusals == 0
  {
    InitInv(init);
    NeverRefused(init, steps, s);
  }

  /** Turns of the worker alone. */
  predicate WorkerOnly(steps: seq<Step>) {
    forall i | 0 <= i < |steps| :: steps[i].Turn? || steps[i].BeginCallback?
  }

  lemma RunCons(s: State, step: Step, steps: seq<Step>, s': State)
    requires Inv(s) && Enabled(s, step) && Inv(Apply(s, step)) && Run(Apply(s, step), steps, s')
    ensures Run(s, [step] + steps, s')
  {
    assert ([step] + steps)[1..] == steps;
  }

  /** Work left for the worker; it is spent by its own steps only. */
  function WorkLeft(s: State): nat {
    2 * |s.q.pendq| + (if s.worker.Processing? then 1 else 0)
  }

  lemma EmptyBag(s: set<nat>)
    requires multiset(s) == multiset{}
    ensures s == {}
  {
    assert forall x :: x in s <==> x in multiset(s);
  }

  lemma IdleIsEmpty(s: State)
    requires Inv(s) && (s.worker.Exited? || s.worker == Asleep(false)) && s.q.pendq == []
    ensures s.outstanding == {} && s.q.busyq == []
  {
    hide Valid;
    EmptyBag(s.outstanding);
  }

  /** A turn either starts the next request or finds nothing left. */
  lemma TurnAdvances(s: State)
    requires Inv(s) && Enabled(s, Turn)
    ensures Inv(Turned(s))
    ensures Turned(s).worker.Processing? ==> WorkLeft(Turned(s)) < WorkLeft(s)
    ensures !Turned(s).worker.Processing? ==>
              Turned(s).q.pendq == [] && Turned(s).worker == if s.closing then Exited else Asleep(false)
    ensures Turned(s).closing == s.closing
  {
    TurnKeeps(s);
    assert Settled(s).pendq == s.q.pendq;
    hide Valid, Turned, LiveBag;
  }

  lemma CallbackAdvances(s: State)
    requires Inv(s) && s.worker.Processing?
    ensures Inv(CalledBack(s)) && CalledBack(s).worker.InCallback? && WorkLeft(CalledBack(s)) < WorkLeft(s)
    ensures CalledBack(s).closing == s.closing
  {
    hide Valid, LiveBag;
    BeginCallbackKeeps(s);
  }

  /** Left alone, a worker that has not exited performs every outstanding request: blocked requests
      are never stuck, whatever their offsets. */
  lemma {:induction false} EverythingDrains(s: State) returns (steps: seq<Step>, s': State)
    requires Inv(s) && !s.worker.Exited?
    ensures Run(s, steps, s') && WorkerOnly(steps) && Inv(s')
    ensures s'.q.pendq == [] && s'.q.busyq == [] && s'.outstanding == {}
    ensures s.closing && s.worker != Asleep(false) ==> s'.worker.Exited?
    decreases WorkLeft(s)
  {
    hide Inv, Turned, CalledBack, WorkLeft;
    if s.worker == Asleep(false) {
      AsleepIsIdle(s);
      return [], s;
    }
    var step := if s.worker.Processing? then BeginCallback else Turn;
    var s1 := Apply(s, step);
    if step.Turn? {
      TurnAdvances(s);
    } else {
      CallbackAdvances(s);
    }
    if step.Turn? && !s1.worker.Processing? {
      IdleIsEmpty(s1);
      steps, s' := [], s1;
    } else {
      steps, s' := EverythingDrains(s1);
    }
    RunCons(s, step, steps, s');
    steps := [step] + steps;
  }

  lemma AsleepIsIdle(s: State)
    requires Inv(s) && s.worker == Asleep(false)
    ensures s.q.pendq == [] && s.q.busyq == [] && s.outstanding == {}
  {
    hide Valid;
    IdleIsEmpty(s);
  }

  /** Closing a backend lets the worker perform everything outstanding and exit. */
  lemma ClosesDown(s: State) returns (closed: State, steps: seq<Step>, s': State)
    requires Inv(s) && !s.worker.Exited?
    ensures Run(s, [SetClosing, BroadcastClosing], closed) && Inv(closed) && Run(closed, steps, s') && WorkerOnly(steps)
    ensures s'.worker.Exited? && s'.outstanding == {}
  {
    closed := CloseBegins(s);
    hide Inv, Run, WorkerOnly;
    steps, s' := EverythingDrains(closed);
  }

  lemma CloseBegins(s: State) returns (closed: State)
    requires Inv(s) && !s.worker.Exited?
    ensures Run(s, [SetClosing, BroadcastClosing], closed) && Inv(closed)
    ensures closed.closing && !closed.worker.Exited? && closed.worker != Asleep(false)
  {
    hide Inv, Run;
    StepKeeps(s, SetClosing);
    var s1 := Apply(s, SetClosing);
    StepKeeps(s1, BroadcastClosing);
    closed := Apply(s1, BroadcastClosing);
    assert s1.closing && closed.closing && !closed.worker.Exited? && closed.worker != Asleep(false);
    hide Apply, Signal;
    RunNothing(closed);
    RunCons(s1, BroadcastClosing, [], closed);
    RunCons(s, SetClosing, [BroadcastClosing] + [], closed);
    assert [SetClosing] + ([BroadcastClosing] + []) == [SetClosing, BroadcastClosing];
  }

  lemma RunNothing(s: State)
    requires Inv(s)
    ensures Run(s, [], s)
  {
    hide Inv;
  }
}
