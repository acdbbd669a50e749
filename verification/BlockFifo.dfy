/** The block device as its callers see it: a queue with one server that takes the requests in the order of
    their arrival, whatever their offsets. */
module BlockFifo {
  import opened Wrappers
  import opened BlockQueue
  import opened BlockWorker

  /** The identities of the requests that wait, in order, and of the one in transfer. */
  datatype Fifo = Fifo(waiting: seq<nat>, serving: Option<nat>)

  /** The list without the first occurrence of `id`. */
  function Without(ids: seq<nat>, id: nat): seq<nat> {
    var i := IndexOf(ids, id);
    if i < |ids| then RemoveAt(ids, i) else ids
  }

  function Stepped(f: Fifo, step: Step): Fifo {
    match step
    case Issue(req, _) => f.(waiting := f.waiting + [req.id])
    case Withdraw(id) => f.(waiting := Without(f.waiting, id))
    case Turn => if f.waiting == [] then Fifo([], None) else Fifo(f.waiting[1..], Some(f.waiting[0]))
    case BeginCallback => f.(serving := None)
    case _ => f
  }

  function Served(f: Fifo, steps: seq<Step>): Fifo
    decreases |steps|
  {
    if steps == [] then f else Served(Stepped(f, steps[0]), steps[1..])
  }

  function Ids(elems: seq<Elem>, s: seq<nat>): (ids: seq<nat>)
    ensures |ids| == |s| && forall i | 0 <= i < |s| :: ids[i] == IdOf(elems, s[i])
  {
    seq(|s|, i requires 0 <= i < |s| => IdOf(elems, s[i]))
  }

  function View(s: State): Fifo {
    Fifo(Ids(s.q.elems, s.q.pendq), if s.worker.Processing? then Some(IdOf(s.q.elems, s.worker.be)) else None)
  }

  lemma IdsSame(elems: seq<Elem>, elems': seq<Elem>, s: seq<nat>)
    requires forall x <- s :: IdOf(elems', x) == IdOf(elems, x)
    ensures Ids(elems', s) == Ids(elems, s)
  {
    hide IdOf;
  }

  lemma IdsAppend(elems: seq<Elem>, s: seq<nat>, x: nat)
    ensures Ids(elems, s + [x]) == Ids(elems, s) + [IdOf(elems, x)]
  {
    hide IdOf;
  }

  lemma IdsTail(elems: seq<Elem>, s: seq<nat>)
    requires s != []
    ensures Ids(elems, s)[0] == IdOf(elems, s[0]) && Ids(elems, s)[1..] == Ids(elems, s[1..])
  {
    hide IdOf;
  }

  lemma IdsRemove(elems: seq<Elem>, s: seq<nat>, i: nat)
    requires i < |s|
    ensures RemoveAt(Ids(elems, s), i) == Ids(elems, RemoveAt(s, i))
  {
    hide IdOf;
  }

  lemma EnqueueElems(q: Queues, req: Req, op: Op)
    requires Valid(q) && q.freeq != []
    ensures q.freeq[0] < |q.elems|
    ensures
      var q' := EnqueueSpec(q, req, op);
      && (forall x | x in q.pendq || x in q.busyq :: IdOf(q'.elems, x) == IdOf(q.elems, x))
      && IdOf(q'.elems, q.freeq[0]) == req.id && q'.pendq == q.pendq + [q.freeq[0]]
  {
    EnqueueMoves(q, req, op);
    hide Valid, EndsAt;
  }

  lemma IssueSeen(s: State, req: Req, op: Op)
    requires Inv(s) && s.q.freeq != []
    ensures View(Issued(s, req, op)) == Stepped(View(s), Issue(req, op))
  {
    EnqueueElems(s.q, req, op);
    if s.worker.Processing? {
      assert s.worker.be in s.q.busyq;
    }
    hide Valid, LiveBag, EnqueueSpec, IdOf, Ids, NeverMissesWork, WorkerAgrees;
    var s' := Issued(s, req, op);
    IdsSame(s.q.elems, s'.q.elems, s.q.pendq);
    IdsAppend(s'.q.elems, s.q.pendq, s.q.freeq[0]);
  }

  /** Every element of `s` carries a request. */
  ghost predicate Named(elems: seq<Elem>, s: seq<nat>) {
    forall x <- s :: x < |elems| && elems[x].req.Some?
  }

  lemma WithoutAt(elems: seq<Elem>, s: seq<nat>, id: nat)
    requires Named(elems, s)
    ensures
      var i := FindReq(elems, s, id);
      Without(Ids(elems, s), id) == if i < |s| then Ids(elems, RemoveAt(s, i)) else Ids(elems, s)
  {
    FoundAt(elems, s, id);
    hide FindReq, IndexOf, Ids, RemoveAt;
    var i := FindReq(elems, s, id);
    if i < |s| {
      IdsRemove(elems, s, i);
    }
  }

  lemma FoundAt(elems: seq<Elem>, s: seq<nat>, id: nat)
    requires Named(elems, s)
    ensures FindReq(elems, s, id) == IndexOf(Ids(elems, s), id)
  {
    var i, k, ids := FindReq(elems, s, id), IndexOf(Ids(elems, s), id), Ids(elems, s);
    hide FindReq, IndexOf, Ids;
    forall j | 0 <= j < |s|
      ensures HasId(elems, s[j], id) <==> ids[j] == id
    {
      assert s[j] in s;
    }
  }

  lemma WithdrawSeen(s: State, id: nat)
    requires Inv(s)
    ensures View(Withdrawn(s, id)) == Stepped(View(s), Withdraw(id))
  {
    var i := FindReq(s.q.elems, s.q.pendq, id);
    hide Partition, BlockersPresent, LiveBag, FindReq, RemoveAt, Unblock, IdOf, Ids;
    assert Named(s.q.elems, s.q.pendq);
    WithoutAt(s.q.elems, s.q.pendq, id);
    if i < |s.q.pendq| {
      CompleteIds(s.q, false, i);
      if s.worker.Processing? {
        assert s.q.busyq[0] in s.q.busyq;
        SameId(s.q.elems, CompleteSpec(s.q, false, i).elems, s.worker.be);
      }
      hide Valid;
      IdsSame(s.q.elems, CompleteSpec(s.q, false, i).elems, RemoveAt(s.q.pendq, i));
    }
  }

  lemma SameId(elems: seq<Elem>, elems': seq<Elem>, x: nat)
    requires x < |elems| && x < |elems'| && elems'[x] == elems[x]
    ensures IdOf(elems', x) == IdOf(elems, x)
  {
  }

  lemma TurnSeen(s: State)
    requires Inv(s) && Enabled(s, Turn)
    ensures View(Turned(s)) == Stepped(View(s), Turn)
  {
    hide Inv, Valid, Settled, IdOf, LiveBag, StartSpec, FirstPend, Ids;
    TurnKeeps(s);
    SettledSeen(s);
    SettledKeeps(s);
    var q := Settled(s);
    if q.pendq != [] {
      HeadRuns(q);
      StartSeen(q);
      IdsTail(q.elems, q.pendq);
    }
  }

  lemma SettledSeen(s: State)
    requires Inv(s) && Enabled(s, Turn)
    ensures Ids(Settled(s).elems, Settled(s).pendq) == Ids(s.q.elems, s.q.pendq)
  {
    if s.worker.InCallback? {
      CompleteIds(s.q, true, 0);
      hide Valid, Unblock, LiveBag, IdOf;
      IdsSame(s.q.elems, Settled(s).elems, s.q.pendq);
    }
  }

  lemma StartSeen(q: Queues)
    requires Valid(q) && q.pendq != [] && q.pendq[0] < |q.elems|
    ensures
      var q' := StartSpec(q, 0);
      && Ids(q'.elems, q.pendq[1..]) == Ids(q.elems, q.pendq[1..]) && IdOf(q'.elems, q.pendq[0]) == IdOf(q.elems, q.pendq[0])
  {
    StartMoves(q, 0);
    hide Valid, Ids;
    FirstRemoved(q.pendq);
    hide RemoveAt;
    var x, rest := q.pendq[0], q.pendq[1..];
    assert x !in rest;
    IdsSame(q.elems, q.elems[x := q.elems[x].(status := Busy)], rest);
  }

  lemma FirstRemoved(s: seq<nat>)
    requires s != []
    ensures RemoveAt(s, 0) == s[1..]
  {
  }

  lemma CallbackSeen(s: State)
    requires Inv(s) && s.worker.Processing?
    ensures View(CalledBack(s)) == Stepped(View(s), BeginCallback)
  {
    hide Valid, LiveBag;
    IdsSame(s.q.elems, CalledBack(s).q.elems, s.q.pendq);
  }

  /** Every step that is not refused is a step of the simple queue. */
  lemma StepSeen(s: State, step: Step)
    requires Inv(s) && Enabled(s, step) && (step.Issue? ==> s.q.freeq != [])
    ensures View(Apply(s, step)) == Stepped(View(s), step)
  {
    hide Inv, Issued, Withdrawn, Turned, CalledBack, Ids, IdOf;
    match step
    case Issue(req, op) => IssueSeen(s, req, op);
    case Withdraw(id) => WithdrawSeen(s, id);
    case Turn => TurnSeen(s);
    case BeginCallback => CallbackSeen(s);
    case _ =>
  }

  /** For callers that keep within the queue size, the device is the simple queue: requests are served one at a
      time, in the order of their arrival. */
  lemma {:induction false} FirstComeFirstServed(s: State, steps: seq<Step>, s': State)
    requires Inv(s) && Run(s, steps, s') && Polite(s, steps)
    ensures View(s') == Served(View(s), steps)
    decreases |steps|
  {
    hide Inv, View, Stepped, Apply;
    if steps != [] {
      StepKeeps(s, steps[0]);
      if steps[0].Issue? {
        RoomForOneMore(s);
      }
      StepSeen(s, steps[0]);
      FirstComeFirstServed(Apply(s, steps[0]), steps[1..], s');
    }
  }
}
