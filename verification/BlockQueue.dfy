/** The request queue of the block device backend.

    Request elements move between a free, a pending and a busy queue.  A request that begins where
    a queued one ends is blocked until that one completes.  Class `BlockContext` performs the locked
    operations in place. */
module BlockQueue {
  import opened Wrappers

  const NUM_THREADS := 1
  const MAX_REQUESTS := 64 + NUM_THREADS
  const OFF_MAX := 0x7fff_ffff_ffff_ffff

  datatype Op = Read | Write | Flush | Delete

  datatype Status = Free | Block | Pend | Busy | Done

  /** A request of the caller: its identity, byte offset and scatter list lengths. */
  datatype Req = Req(id: nat, offset: int, iov: seq<nat>)

  datatype Elem = Elem(status: Status, req: Option<Req>, op: Op, block: int)

  /** The queues hold indices of elements. */
  datatype Queues = Queues(freeq: seq<nat>, pendq: seq<nat>, busyq: seq<nat>, elems: seq<Elem>)

  // ---------------------------------------------------------------------------
  // What each locked operation does to the queues
  // ---------------------------------------------------------------------------

  function SumLens(iov: seq<nat>): nat {
    if iov == [] then 0 else SumLens(iov[..|iov| - 1]) + iov[|iov| - 1]
  }

  /** Where a request ends; flushes end nowhere. */
  function EndOf(req: Req, op: Op): int {
    if op.Flush? then OFF_MAX else req.offset + SumLens(req.iov)
  }

  /** Some element of `q` ends at `offset`. */
  predicate EndsAt(elems: seq<Elem>, q: seq<nat>, offset: int) {
    exists i :: 0 <= i < |q| && q[i] < |elems| && elems[q[i]].block == offset
  }

  function EnqueueSpec(q: Queues, req: Req, op: Op): Queues
    requires q.freeq != [] && q.freeq[0] < |q.elems|
  {
    var be := q.freeq[0];
    var status := if EndsAt(q.elems, q.pendq, req.offset) || EndsAt(q.elems, q.busyq, req.offset) then Block else Pend;
    Queues(q.freeq[1..], q.pendq + [be], q.busyq,
           q.elems[be := Elem(status, Some(req), op, EndOf(req, op))])
  }

  function RemoveAt<T>(s: seq<T>, i: nat): seq<T>
    requires i < |s|
  {
    s[..i] + s[i + 1..]
  }

  /** The position of the first pending element that is not blocked, or the length. */
  function FirstPend(elems: seq<Elem>, pendq: seq<nat>): (i: nat)
    ensures i <= |pendq|
    ensures i < |pendq| ==> pendq[i] < |elems| && elems[pendq[i]].status.Pend?
    ensures forall j | 0 <= j < i :: !(pendq[j] < |elems| && elems[pendq[j]].status.Pend?)
  {
    if pendq == [] || (pendq[0] < |elems| && elems[pendq[0]].status.Pend?) then 0
    else 1 + FirstPend(elems, pendq[1..])
  }

  /** Starts the element at position `i` of the pending queue. */
  function StartSpec(q: Queues, i: nat): Queues
    requires i < |q.pendq| && q.pendq[i] < |q.elems|
  {
    var be := q.pendq[i];
    q.(pendq := RemoveAt(q.pendq, i), busyq := q.busyq + [be], elems := q.elems[be := q.elems[be].(status := Busy)])
  }

  /** All pending requests that begin at `block` become runnable. */
  function Unblock(elems: seq<Elem>, pendq: seq<nat>, block: int): (r: seq<Elem>)
    ensures |r| == |elems|
    ensures forall i | 0 <= i < |elems| ::
              r[i] == if i in pendq && Begins(elems[i], block) then elems[i].(status := Pend) else elems[i]
  {
    seq(|elems|, i requires 0 <= i < |elems| =>
      if i in pendq && Begins(elems[i], block) then elems[i].(status := Pend) else elems[i])
  }

  predicate Begins(e: Elem, offset: int) {
    e.req.Some? && e.req.value.offset == offset
  }

  function FreeElem(e: Elem): Elem {
    e.(status := Free, req := None)
  }

  predicate CanComplete(q: Queues, busy: bool, i: nat) {
    var from := if busy then q.busyq else q.pendq;
    i < |from| && from[i] < |q.elems|
  }

  /** Element `be`, already taken out of its queue, wakes its successors and becomes free. */
  function Finish(q: Queues, be: nat, pendq: seq<nat>, busyq: seq<nat>): Queues
    requires be < |q.elems|
  {
    var elems := Unblock(q.elems, pendq, q.elems[be].block);
    Queues(q.freeq + [be], pendq, busyq, elems[be := FreeElem(elems[be])])
  }

  /** Ends the element at position `i` of the busy queue, or of the pending queue on cancellation. */
  function CompleteSpec(q: Queues, busy: bool, i: nat): Queues
    requires CanComplete(q, busy, i)
  {
    if busy then Finish(q, q.busyq[i], q.pendq, RemoveAt(q.busyq, i))
    else Finish(q, q.pendq[i], RemoveAt(q.pendq, i), q.busyq)
  }

  // ---------------------------------------------------------------------------
  // The invariant of the queues
  // ---------------------------------------------------------------------------

  function All(q: Queues): multiset<nat> {
    multiset(q.freeq) + multiset(q.pendq) + multiset(q.busyq)
  }

  /** 0, 1, ..., n - 1, each once. */
  function Once(n: nat): (m: multiset<nat>)
    ensures forall i: nat :: m[i] == if i < n then 1 else 0
  {
    if n == 0 then multiset{} else Once(n - 1) + multiset{n - 1}
  }

  /** The three queues partition the elements. */
  predicate Partition(q: Queues) {
    All(q) == Once(|q.elems|)
  }

  ghost predicate StatusesAgree(q: Queues) {
    && (forall i <- q.freeq :: i < |q.elems| && q.elems[i].status.Free?)
    && (forall i <- q.pendq ::
          i < |q.elems| && (q.elems[i].status.Pend? || q.elems[i].status.Block?) && q.elems[i].req.Some?)
    && (forall i <- q.busyq ::
          i < |q.elems| && (q.elems[i].status.Busy? || q.elems[i].status.Done?) && q.elems[i].req.Some?)
  }

  /** The blocked request at position `i` has a request in busyq or earlier in pendq that ends where
      it begins. */
  predicate HasBlocker(q: Queues, i: nat)
    requires i < |q.pendq| && q.pendq[i] < |q.elems| && q.elems[q.pendq[i]].req.Some?
  {
    var offset := q.elems[q.pendq[i]].req.value.offset;
    EndsAt(q.elems, q.busyq, offset) || EndsAt(q.elems, q.pendq[..i], offset)
  }

  ghost predicate BlockersPresent(q: Queues)
    requires StatusesAgree(q)
  {
    forall i: nat | i < |q.pendq| :: var be := q.pendq[i]; be in q.pendq && q.elems[be].status.Block? ==> HasBlocker(q, i)
  }

  ghost predicate Valid(q: Queues) {
    |q.elems| == MAX_REQUESTS && Partition(q) && StatusesAgree(q) && BlockersPresent(q)
  }

  lemma RemoveAtCount<T>(s: seq<T>, i: nat)
    requires i < |s|
    ensures multiset(s) == multiset(RemoveAt(s, i)) + multiset{s[i]}
    ensures forall x <- RemoveAt(s, i) :: x in s
  {
    assert s == s[..i] + [s[i]] + s[i + 1..];
  }

  /** An element of a partition is in one place only. */
  lemma OnePlace(q: Queues, be: nat)
    requires Partition(q)
    ensures multiset(q.freeq)[be] + multiset(q.pendq)[be] + multiset(q.busyq)[be] <= 1
  {
    assert All(q)[be] <= 1;
  }

  lemma EndsAtSame(elems: seq<Elem>, elems': seq<Elem>, s: seq<nat>, s': seq<nat>, offset: int)
    requires EndsAt(elems, s, offset)
    requires forall x <- s :: x in s' && (x < |elems| ==> x < |elems'| && elems'[x].block == elems[x].block)
    ensures EndsAt(elems', s', offset)
  {
    var i :| 0 <= i < |s| && s[i] < |elems| && elems[s[i]].block == offset;
    assert s[i] in s';
    var j :| 0 <= j < |s'| && s'[j] == s[i];
  }

  // ---------------------------------------------------------------------------
  // Every operation keeps the invariant
  // ---------------------------------------------------------------------------

  lemma EnqueueMoves(q: Queues, req: Req, op: Op)
    requires Valid(q) && q.freeq != []
    ensures q.freeq[0] < |q.elems| && Partition(EnqueueSpec(q, req, op))
    ensures q.freeq[0] !in q.pendq && q.freeq[0] !in q.busyq && q.freeq[0] !in q.freeq[1..]
  {
    var be := q.freeq[0];
    assert be in q.freeq && q.freeq == [be] + q.freeq[1..];
    OnePlace(q, be);
    assert All(EnqueueSpec(q, req, op)) == All(q);
  }

  lemma EnqueueStatuses(q: Queues, req: Req, op: Op)
    requires Valid(q) && q.freeq != []
    ensures q.freeq[0] < |q.elems| && StatusesAgree(EnqueueSpec(q, req, op))
  {
    hide Partition, BlockersPresent;
    EnqueueMoves(q, req, op);
    assert forall x <- q.freeq[1..] :: x in q.freeq;
  }

  lemma EnqueueValid(q: Queues, req: Req, op: Op)
    requires Valid(q) && q.freeq != []
    ensures q.freeq[0] < |q.elems| && Valid(EnqueueSpec(q, req, op))
  {
    hide Partition;
    EnqueueMoves(q, req, op);
    EnqueueStatuses(q, req, op);
    var q' := EnqueueSpec(q, req, op);
    forall i: nat | i < |q'.pendq| && q'.elems[q'.pendq[i]].status.Block?
      ensures HasBlocker(q', i)
    {
      var offset := q'.elems[q'.pendq[i]].req.value.offset;
      if i < |q.pendq| {
        assert q'.pendq[i] == q.pendq[i] && q.pendq[i] in q.pendq && HasBlocker(q, i);
      }
      assert q'.pendq[..i] == q.pendq[..i];
      if EndsAt(q.elems, q.busyq, offset) {
        EndsAtSame(q.elems, q'.elems, q.busyq, q.busyq, offset);
      } else {
        assert i == |q.pendq| ==> q.pendq[..i] == q.pendq;
        EndsAtSame(q.elems, q'.elems, q.pendq[..i], q.pendq[..i], offset);
      }
    }
  }

  lemma StartMoves(q: Queues, i: nat)
    requires Valid(q) && i < |q.pendq| && q.pendq[i] < |q.elems|
    ensures Partition(StartSpec(q, i))
    ensures var be := q.pendq[i]; be !in q.freeq && be !in RemoveAt(q.pendq, i) && be !in q.busyq
    ensures forall x <- RemoveAt(q.pendq, i) :: x in q.pendq
  {
    RemoveAtCount(q.pendq, i);
    assert q.pendq[i] in q.pendq;
    OnePlace(q, q.pendq[i]);
    assert All(StartSpec(q, i)) == All(q);
  }

  lemma StartStatuses(q: Queues, i: nat)
    requires Valid(q) && i < |q.pendq| && q.pendq[i] < |q.elems|
    ensures StatusesAgree(StartSpec(q, i))
  {
    hide Partition, BlockersPresent, RemoveAt;
    StartMoves(q, i);
    assert q.pendq[i] in q.pendq;
  }

  lemma StartBlocker(q: Queues, i: nat, k: nat)
    requires Valid(q) && i < |q.pendq| && q.pendq[i] < |q.elems|
    requires StatusesAgree(StartSpec(q, i)) && k < |q.pendq| - 1
    requires StartSpec(q, i).elems[RemoveAt(q.pendq, i)[k]].status.Block?
    ensures RemoveAt(q.pendq, i)[k] in RemoveAt(q.pendq, i) && HasBlocker(StartSpec(q, i), k)
  {
    hide Partition, EndsAt;
    var q' := StartSpec(q, i);
    var k0 := if k < i then k else k + 1;
    assert q'.pendq[k] == q.pendq[k0] && q.pendq[k0] in q.pendq && q'.pendq[k] in q'.pendq;
    StartMoves(q, i);
    assert HasBlocker(q, k0);
    hide BlockersPresent, RemoveAt, StatusesAgree;
    BlockerStays(q.elems, q'.elems, q.busyq, q.pendq, i, k, q.elems[q.pendq[k0]].req.value.offset);
  }

  /** Starting an element keeps some earlier or busy request that ends at `offset`. */
  lemma BlockerStays(elems: seq<Elem>, elems': seq<Elem>, busyq: seq<nat>, pendq: seq<nat>, i: nat, k: nat, offset: int)
    requires i < |pendq| && k < |pendq| - 1 && pendq[i] < |elems|
    requires |elems'| == |elems| && forall x | 0 <= x < |elems| :: elems'[x].block == elems[x].block
    requires EndsAt(elems, busyq, offset) || EndsAt(elems, pendq[..if k < i then k else k + 1], offset)
    ensures EndsAt(elems', busyq + [pendq[i]], offset) || EndsAt(elems', RemoveAt(pendq, i)[..k], offset)
  {
    if EndsAt(elems, busyq, offset) {
      EndsAtSame(elems, elems', busyq, busyq + [pendq[i]], offset);
    } else if elems[pendq[i]].block == offset {
      assert (busyq + [pendq[i]])[|busyq|] == pendq[i];
    } else {
      StillBefore(elems, elems', pendq, i, k, offset);
    }
  }

  lemma StartValid(q: Queues, i: nat)
    requires Valid(q) && i < |q.pendq| && q.pendq[i] < |q.elems|
    ensures Valid(StartSpec(q, i))
  {
    StartMoves(q, i);
    StartStatuses(q, i);
    var q' := StartSpec(q, i);
    hide Partition, HasBlocker;
    forall k: nat | k < |q'.pendq| && q'.elems[q'.pendq[k]].status.Block?
      ensures HasBlocker(q', k)
    {
      StartBlocker(q, i, k);
    }
  }

  /** Taking out an element that does not end at `offset` leaves the earlier one that does. */
  lemma StillBefore(elems: seq<Elem>, elems': seq<Elem>, pendq: seq<nat>, i: nat, k: nat, offset: int)
    requires i < |pendq| && k < |pendq| - 1
    requires |elems'| == |elems| && forall x | 0 <= x < |elems| :: elems'[x].block == elems[x].block
    requires EndsAt(elems, pendq[..if k < i then k else k + 1], offset)
    requires pendq[i] < |elems| && elems[pendq[i]].block != offset
    ensures EndsAt(elems', RemoveAt(pendq, i)[..k], offset)
  {
    var before := pendq[..if k < i then k else k + 1];
    var j :| 0 <= j < |before| && before[j] < |elems| && elems[before[j]].block == offset;
    assert j != i;
    var j' := if j < i then j else j - 1;
    assert RemoveAt(pendq, i)[..k][j'] == pendq[j];
  }

  /** `be` has been taken out of the queues of `q`, leaving `pendq` and `busyq`. */
  ghost predicate TakenOut(q: Queues, be: nat, pendq: seq<nat>, busyq: seq<nat>) {
    && be < |q.elems|
    && multiset(q.pendq) + multiset(q.busyq) == multiset(pendq) + multiset(busyq) + multiset{be}
    && multiset(pendq) <= multiset(q.pendq) && multiset(busyq) <= multiset(q.busyq)
  }

  lemma FinishPartition(q: Queues, be: nat, pendq: seq<nat>, busyq: seq<nat>)
    requires Partition(q) && TakenOut(q, be, pendq, busyq)
    ensures Partition(Finish(q, be, pendq, busyq))
  {
    hide Unblock, Once;
    var q' := Finish(q, be, pendq, busyq);
    assert multiset(q'.freeq) == multiset(q.freeq) + multiset{be};
    var rest := multiset(pendq) + multiset(busyq) + multiset{be};
    assert All(q') == multiset(q.freeq) + rest;
    assert All(q) == multiset(q.freeq) + (multiset(q.pendq) + multiset(q.busyq));
  }

  lemma TakenApart(q: Queues, be: nat, pendq: seq<nat>, busyq: seq<nat>)
    requires Partition(q) && TakenOut(q, be, pendq, busyq)
    ensures be !in q.freeq && be !in pendq && be !in busyq
  {
    OnePlace(q, be);
    hide Partition, All, Once;
    var both := multiset(q.pendq) + multiset(q.busyq);
    assert both[be] == multiset(pendq)[be] + multiset(busyq)[be] + 1;
  }

  lemma TakenWithin(q: Queues, be: nat, pendq: seq<nat>, busyq: seq<nat>)
    requires TakenOut(q, be, pendq, busyq)
    ensures (forall x <- pendq :: x in q.pendq) && (forall x <- busyq :: x in q.busyq)
    ensures forall x | x in q.busyq && x != be :: x in busyq
  {
    forall x | x in pendq ensures x in q.pendq {
      assert x in multiset(pendq);
    }
    forall x | x in busyq ensures x in q.busyq {
      assert x in multiset(busyq);
    }
    forall x | x in q.busyq && x != be ensures x in busyq {
      assert (multiset(q.pendq) + multiset(q.busyq))[x] == multiset(pendq)[x] + multiset(busyq)[x];
      assert x in multiset(q.busyq) && multiset(pendq)[x] <= multiset(q.pendq)[x];
    }
  }

  lemma FinishStatuses(q: Queues, be: nat, pendq: seq<nat>, busyq: seq<nat>)
    requires Valid(q) && TakenOut(q, be, pendq, busyq)
    ensures StatusesAgree(Finish(q, be, pendq, busyq))
  {
    TakenApart(q, be, pendq, busyq);
    TakenWithin(q, be, pendq, busyq);
    hide Partition, BlockersPresent, TakenOut;
  }

  /** A request that stays blocked was waiting for another one than `be`. */
  lemma FinishBlocker(q: Queues, be: nat, pendq: seq<nat>, busyq: seq<nat>, k: nat, k0: nat)
    requires Valid(q) && TakenOut(q, be, pendq, busyq) && StatusesAgree(Finish(q, be, pendq, busyq))
    requires k < |pendq| && k0 < |q.pendq| && q.pendq[k0] == pendq[k] && pendq[k] in pendq
    requires Finish(q, be, pendq, busyq).elems[pendq[k]].status.Block?
    requires forall x | x in q.pendq[..k0] && x != be :: x in pendq[..k]
    ensures HasBlocker(Finish(q, be, pendq, busyq), k)
  {
    var q' := Finish(q, be, pendq, busyq);
    var x := pendq[k];
    assert x in q.pendq && HasBlocker(q, k0);
    TakenApart(q, be, pendq, busyq);
    TakenWithin(q, be, pendq, busyq);
    hide Partition, TakenOut, StatusesAgree, BlockersPresent;
    var offset := q.elems[x].req.value.offset;
    assert offset != q.elems[be].block && q'.elems[x].req == q.elems[x].req;
    if EndsAt(q.elems, q.busyq, offset) {
      OtherStillEnds(q.elems, q'.elems, q.busyq, be, busyq, offset);
    } else {
      OtherStillEnds(q.elems, q'.elems, q.pendq[..k0], be, pendq[..k], offset);
    }
  }

  lemma Taken(q: Queues, busy: bool, i: nat)
    requires CanComplete(q, busy, i)
    ensures if busy then TakenOut(q, q.busyq[i], q.pendq, RemoveAt(q.busyq, i))
            else TakenOut(q, q.pendq[i], RemoveAt(q.pendq, i), q.busyq)
  {
    RemoveAtCount(if busy then q.busyq else q.pendq, i);
  }

  lemma FinishBlockers(q: Queues, busy: bool, i: nat)
    requires Valid(q) && CanComplete(q, busy, i)
    ensures StatusesAgree(CompleteSpec(q, busy, i)) && BlockersPresent(CompleteSpec(q, busy, i))
  {
    var be := if busy then q.busyq[i] else q.pendq[i];
    var pendq := if busy then q.pendq else RemoveAt(q.pendq, i);
    var busyq := if busy then RemoveAt(q.busyq, i) else q.busyq;
    var q' := Finish(q, be, pendq, busyq);
    assert CompleteSpec(q, busy, i) == q';
    hide Valid, HasBlocker, TakenOut, Finish, StatusesAgree, CompleteSpec;
    Taken(q, busy, i);
    FinishStatuses(q, be, pendq, busyq);
    FinishQueues(q, be, pendq, busyq);
    hide RemoveAt;
    forall k: nat | k < |pendq| && pendq[k] in pendq && q'.elems[pendq[k]].status.Block?
      ensures HasBlocker(q', k)
    {
      StillBlocked(q, be, pendq, busyq, busy, i, k);
    }
  }

  lemma StillBlocked(q: Queues, be: nat, pendq: seq<nat>, busyq: seq<nat>, busy: bool, i: nat, k: nat)
    requires Valid(q) && TakenOut(q, be, pendq, busyq) && StatusesAgree(Finish(q, be, pendq, busyq))
    requires busy || (i < |q.pendq| && q.pendq[i] == be)
    requires pendq == if busy then q.pendq else RemoveAt(q.pendq, i)
    requires k < |pendq| && pendq[k] in pendq && pendq[k] < |q.elems|
    requires Finish(q, be, pendq, busyq).elems[pendq[k]].status.Block?
    ensures HasBlocker(Finish(q, be, pendq, busyq), k)
  {
    hide Valid, HasBlocker, TakenOut, Finish, StatusesAgree, RemoveAt;
    var k0 := if busy || k < i then k else k + 1;
    EarlierStay(q.pendq, i, k, busy);
    FinishBlocker(q, be, pendq, busyq, k, k0);
  }

  lemma FinishQueues(q: Queues, be: nat, pendq: seq<nat>, busyq: seq<nat>)
    requires be < |q.elems| && StatusesAgree(Finish(q, be, pendq, busyq))
    ensures
      var q' := Finish(q, be, pendq, busyq);
      q'.pendq == pendq && forall k | 0 <= k < |pendq| :: pendq[k] < |q'.elems| && q'.elems[pendq[k]].req.Some?
  {
    assert forall k | 0 <= k < |pendq| :: pendq[k] in pendq;
  }

  lemma CompleteValid(q: Queues, busy: bool, i: nat)
    requires Valid(q) && CanComplete(q, busy, i)
    ensures Valid(CompleteSpec(q, busy, i))
  {
    var be := if busy then q.busyq[i] else q.pendq[i];
    var pendq := if busy then q.pendq else RemoveAt(q.pendq, i);
    var busyq := if busy then RemoveAt(q.busyq, i) else q.busyq;
    hide Partition, TakenOut, StatusesAgree, BlockersPresent, RemoveAt;
    Taken(q, busy, i);
    FinishPartition(q, be, pendq, busyq);
    FinishBlockers(q, busy, i);
    hide Unblock;
  }

  /** Taking one element out keeps the others in front of a position in front of it. */
  lemma EarlierStay(pendq: seq<nat>, i: nat, k: nat, busy: bool)
    requires busy || i < |pendq|
    requires k < if busy then |pendq| else |RemoveAt(pendq, i)|
    ensures
      var pendq' := if busy then pendq else RemoveAt(pendq, i);
      var k0 := if busy || k < i then k else k + 1;
      k0 < |pendq| && pendq'[k] == pendq[k0] && forall x | x in pendq[..k0] && (busy || x != pendq[i]) :: x in pendq'[..k]
  {
    if !busy {
      RemovedAt(pendq, i, k);
    }
    var pendq' := if busy then pendq else RemoveAt(pendq, i);
    var k0 := if busy || k < i then k else k + 1;
    forall x | x in pendq[..k0] && (busy || x != pendq[i])
      ensures x in pendq'[..k]
    {
      var j :| 0 <= j < k0 && pendq[j] == x;
      var j' := if busy || j < i then j else j - 1;
      if !busy {
        RemovedAt(pendq, i, j');
      }
      hide RemoveAt;
      assert pendq'[..k][j'] == x;
    }
  }

  lemma RemovedAt(s: seq<nat>, i: nat, k: nat)
    requires i < |s| && k < |RemoveAt(s, i)|
    ensures |RemoveAt(s, i)| == |s| - 1 && RemoveAt(s, i)[k] == s[if k < i then k else k + 1]
  {
  }

  lemma OtherStillEnds(elems: seq<Elem>, elems': seq<Elem>, s: seq<nat>, be: nat, s': seq<nat>, offset: int)
    requires EndsAt(elems, s, offset)
    requires |elems'| == |elems| && forall x | 0 <= x < |elems| :: elems'[x].block == elems[x].block
    requires be < |elems| && elems[be].block != offset
    requires forall x | x in s && x != be :: x in s'
    ensures EndsAt(elems', s', offset)
  {
    var j :| 0 <= j < |s| && s[j] < |elems| && elems[s[j]].block == offset;
    assert s[j] in s';
    var j' :| 0 <= j' < |s'| && s'[j'] == s[j];
  }

  // ---------------------------------------------------------------------------
  // The locked operations, in place
  // ---------------------------------------------------------------------------

  /** The first position of `x`, or the length. */
  function IndexOf(s: seq<nat>, x: nat): (i: nat)
    ensures i <= |s| && (i < |s| ==> s[i] == x) && x !in s[..i]
    ensures i < |s| <==> x in s
  {
    if s == [] || s[0] == x then 0 else 1 + IndexOf(s[1..], x)
  }

  predicate HasId(elems: seq<Elem>, i: nat, id: nat) {
    i < |elems| && elems[i].req.Some? && elems[i].req.value.id == id
  }

  /** The position of the first element of `s` that carries request `id`, or the length. */
  function FindReq(elems: seq<Elem>, s: seq<nat>, id: nat): (i: nat)
    ensures i <= |s| && (i < |s| ==> HasId(elems, s[i], id))
    ensures forall j | 0 <= j < i :: !HasId(elems, s[j], id)
  {
    if s == [] || HasId(elems, s[0], id) then 0 else 1 + FindReq(elems, s[1..], id)
  }

  lemma StatusTellsQueue(q: Queues, be: nat)
    requires Valid(q) && (be in q.busyq || be in q.pendq)
    ensures be < |q.elems|
    ensures q.elems[be].status.Done? || q.elems[be].status.Busy? <==> be in q.busyq
    ensures var busy := be in q.busyq; CanComplete(q, busy, IndexOf(if busy then q.busyq else q.pendq, be))
  {
    hide Partition, BlockersPresent;
  }

  lemma WithinAfter(q: Queues, busy: bool, i: nat)
    requires Valid(q) && CanComplete(q, busy, i)
    ensures forall x <- CompleteSpec(q, busy, i).pendq :: x < |q.elems|
    ensures (if busy then q.busyq[i] else q.pendq[i]) < |q.elems|
  {
    CompleteValid(q, busy, i);
    hide Partition, BlockersPresent;
  }

  datatype CancelResult = Cancelled | InFlight | NotFound

  lemma PendingStatuses(q: Queues)
    requires Valid(q)
    ensures forall i | 0 <= i < |q.pendq| ::
              q.pendq[i] < |q.elems| && (q.elems[q.pendq[i]].status.Pend? || q.elems[q.pendq[i]].status.Block?)
  {
    hide Partition, BlockersPresent;
    assert forall i | 0 <= i < |q.pendq| :: q.pendq[i] in q.pendq;
  }

  lemma NoneFree()
    ensures Once(0) == multiset{}
  {
  }

  lemma OneMoreFree(freeq: seq<nat>, i: nat)
    requires multiset(freeq) == Once(i) && forall x <- freeq :: x < i
    ensures multiset([i] + freeq) == Once(i + 1) && forall x <- [i] + freeq :: x < i + 1
  {
  }

  lemma AllFree(q: Queues)
    requires q.pendq == [] && q.busyq == [] && |q.elems| == MAX_REQUESTS && multiset(q.freeq) == Once(|q.elems|)
    requires forall x <- q.freeq :: x < |q.elems|
    requires forall k | 0 <= k < |q.elems| :: q.elems[k].status.Free?
    ensures Valid(q)
  {
    assert All(q) == multiset(q.freeq);
  }

  class BlockContext {
    var freeq: seq<nat>
    var pendq: seq<nat>
    var busyq: seq<nat>
    var elems: seq<Elem>

    constructor ()
      ensures Valid(View()) && pendq == [] && busyq == []
    {
      freeq, pendq, busyq := [], [], [];
      elems := seq(MAX_REQUESTS, i => Elem(Free, None, Read, 0));
      new;
      hide Valid, Once;
      NoneFree();
      for i := 0 to MAX_REQUESTS
        invariant |freeq| == i && pendq == [] && busyq == [] && |elems| == MAX_REQUESTS
        invariant multiset(freeq) == Once(i)
        invariant forall x <- freeq :: x < i
        invariant forall k | 0 <= k < |elems| :: elems[k].status.Free?
      {
        OneMoreFree(freeq, i);
        freeq := [i] + freeq;
      }
      AllFree(View());
    }

    ghost function View(): Queues
      reads this
    {
      Queues(freeq, pendq, busyq, elems)
    }

    /** Looks for an element of `s` that ends at `offset`. */
    method SearchEnd(s: seq<nat>, offset: int) returns (found: bool)
      ensures found == EndsAt(elems, s, offset)
    {
      for i := 0 to |s|
        invariant forall j | 0 <= j < i :: !(s[j] < |elems| && elems[s[j]].block == offset)
      {
        if s[i] < |elems| && elems[s[i]].block == offset {
          return true;
        }
      }
      return false;
    }

    method Enqueue(req: Req, op: Op) returns (runnable: bool)
      requires Valid(View()) && freeq != []
      modifies this
      ensures old(freeq)[0] < |old(elems)| && View() == EnqueueSpec(old(View()), req, op) && Valid(View())
      ensures runnable == elems[old(freeq)[0]].status.Pend?
    {
      hide Valid, EndsAt;
      EnqueueValid(View(), req, op);
      var be := freeq[0];
      var off := OFF_MAX;
      if !op.Flush? {
        off := req.offset;
        for i := 0 to |req.iov|
          invariant off == req.offset + SumLens(req.iov[..i])
        {
          off := off + req.iov[i];
          assert req.iov[..i + 1][..i] == req.iov[..i];
        }
        assert req.iov[..|req.iov|] == req.iov;
      }
      var found := SearchEnd(pendq, req.offset);
      if !found {
        found := SearchEnd(busyq, req.offset);
      }
      runnable := !found;
      elems := elems[be := Elem(if found then Block else Pend, Some(req), op, off)];
      freeq := freeq[1..];
      pendq := pendq + [be];
    }

    /** The position of the first pending element that is not blocked. */
    method FindRunnable() returns (i: nat)
      requires Valid(View())
      ensures i == FirstPend(elems, pendq)
    {
      ghost var first := FirstPend(elems, pendq);
      PendingStatuses(View());
      hide Valid, FirstPend;
      i := 0;
      while i < |pendq| && !elems[pendq[i]].status.Pend?
        invariant i <= first
      {
        assert elems[pendq[i]].status.Block?;
        i := i + 1;
      }
    }

    method Dequeue() returns (be: Option<nat>)
      requires Valid(View())
      modifies this
      ensures Valid(View())
      ensures var i := FirstPend(old(elems), old(pendq));
              if i < |old(pendq)| then be == Some(old(pendq)[i]) && View() == StartSpec(old(View()), i)
              else be == None && View() == old(View())
    {
      hide Valid, FirstPend;
      var i := FindRunnable();
      if i == |pendq| {
        return None;
      }
      StartValid(View(), i);
      be := Some(pendq[i]);
      elems := elems[pendq[i] := elems[pendq[i]].(status := Busy)];
      busyq := busyq + [pendq[i]];
      pendq := pendq[..i] + pendq[i + 1..];
    }

    /** Makes every pending request that begins at `block` runnable. */
    method WakeSuccessors(block: int)
      requires forall x <- pendq :: x < |elems|
      modifies `elems
      ensures elems == Unblock(old(elems), pendq, block)
    {
      ghost var woken := Unblock(elems, pendq, block);
      for k := 0 to |pendq|
        invariant |elems| == |old(elems)|
        invariant forall x | 0 <= x < |elems| :: elems[x] == if x in pendq[..k] then woken[x] else old(elems)[x]
      {
        assert pendq[k] in pendq;
        if Begins(elems[pendq[k]], block) {
          elems := elems[pendq[k] := elems[pendq[k]].(status := Pend)];
        }
        assert pendq[..k + 1] == pendq[..k] + [pendq[k]];
      }
      assert pendq[..|pendq|] == pendq;
    }

    method Complete(be: nat)
      requires Valid(View()) && (be in busyq || be in pendq)
      modifies this
      ensures var busy := be in old(busyq);
              var i := IndexOf(if busy then old(busyq) else old(pendq), be);
              CanComplete(old(View()), busy, i) && View() == CompleteSpec(old(View()), busy, i) && Valid(View())
    {
      hide Valid, Unblock, IndexOf, RemoveAt, FreeElem;
      ghost var q := View();
      StatusTellsQueue(q, be);
      var busy := elems[be].status.Done? || elems[be].status.Busy?;
      var i := IndexOf(if busy then busyq else pendq, be);
      CompleteValid(q, busy, i);
      WithinAfter(q, busy, i);
      if busy {
        busyq := RemoveAt(busyq, i);
      } else {
        pendq := RemoveAt(pendq, i);
      }
      WakeSuccessors(elems[be].block);
      elems := elems[be := FreeElem(elems[be])];
      freeq := freeq + [be];
    }

    /** Request a transfer: refused with E2BIG only when no element is free.  `signal` tells whether
        the worker is signalled. */
    method Request(req: Req, op: Op) returns (refused: bool, signal: bool)
      requires Valid(View())
      modifies this
      ensures Valid(View()) && refused == (old(freeq) == [])
      ensures refused ==> View() == old(View()) && !signal
      ensures !refused ==>
                && old(freeq)[0] < |old(elems)| && View() == EnqueueSpec(old(View()), req, op)
                && signal == elems[old(freeq)[0]].status.Pend?
    {
      if freeq != [] {
        signal := Enqueue(req, op);
        refused := false;
      } else {
        refused, signal := true, false;
      }
    }

    /** One turn of the worker under the lock: completes the element it has processed, if any, and
        takes the next one. */
    method WorkerTurn(done: Option<nat>) returns (next: Option<nat>)
      requires Valid(View()) && (done.Some? ==> busyq == [done.value])
      modifies this
      ensures Valid(View()) && (done.Some? ==> CanComplete(old(View()), true, 0))
      ensures var q := Completed(old(View()), done);
              var i := FirstPend(q.elems, q.pendq);
              if i < |q.pendq| then next == Some(q.pendq[i]) && View() == StartSpec(q, i)
              else next == None && View() == q
    {
      if done.Some? {
        StatusTellsQueue(View(), done.value);
      }
      hide Valid, FirstPend, StartSpec, CompleteSpec;
      if done.Some? {
        assert done.value in busyq && IndexOf(busyq, done.value) == 0;
        Complete(done.value);
      }
      next := Dequeue();
    }

    /** Cancels a request that is still pending; one in flight is left to its callback. */
    method Cancel(id: nat) returns (r: CancelResult)
      requires Valid(View())
      modifies this
      ensures Valid(View())
      ensures var i := FindReq(old(elems), old(pendq), id);
              if i < |old(pendq)|
              then r == Cancelled && CanComplete(old(View()), false, i) && View() == CompleteSpec(old(View()), false, i)
              else r != Cancelled && View() == old(View())
    {
      var i := FindReq(elems, pendq, id);
      if i < |pendq| {
        PositionIsIndex(View(), i);
        Complete(pendq[i]);
        return Cancelled;
      }
      var j := FindReq(elems, busyq, id);
      return if j < |busyq| then InFlight else NotFound;
    }
  }

  /** The queues after the worker has taken the lock: what it was processing is complete. */
  function Completed(q: Queues, done: Option<nat>): Queues
    requires done.Some? ==> CanComplete(q, true, 0)
  {
    if done.Some? then CompleteSpec(q, true, 0) else q
  }

  /** Positions in the pending queue are unambiguous. */
  lemma PositionIsIndex(q: Queues, i: nat)
    requires Valid(q) && i < |q.pendq|
    ensures q.pendq[i] in q.pendq && q.pendq[i] !in q.busyq && IndexOf(q.pendq, q.pendq[i]) == i
    ensures CanComplete(q, false, i)
  {
    var be := q.pendq[i];
    OnePlace(q, be);
    IndexIsUnique(q.pendq, i);
  }

  lemma {:induction false} IndexIsUnique(s: seq<nat>, i: nat)
    requires i < |s| && multiset(s)[s[i]] <= 1
    ensures IndexOf(s, s[i]) == i
  {
    assert s == [s[0]] + s[1..];
    if i > 0 {
      assert s[i] == s[1..][i - 1] && s[i] in multiset(s[1..]);
      IndexIsUnique(s[1..], i - 1);
    }
  }
}
