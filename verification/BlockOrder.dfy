/** In which order the block device performs its requests: when a blocked request becomes runnable, for any
    number of workers, and that the one worker there is serves the requests in the order of their arrival. */
module BlockOrder {
  import opened Wrappers
  import opened BlockQueue

  // ---------------------------------------------------------------------------
  // Blocked requests, for any schedule of workers and callers
  // ---------------------------------------------------------------------------

  /** A request enters, a worker takes the first runnable one, ends the one at a position of the busy queue, or
      a caller drops the one at a position of the pending queue. */
  datatype Move = Enter(req: Req, op: Op) | Begin | End(i: nat) | Drop(i: nat)

  ghost predicate CanMove(q: Queues, mv: Move)
    requires Valid(q)
  {
    match mv
    case Enter(_, _) => q.freeq != []
    case Begin => FirstPend(q.elems, q.pendq) < |q.pendq|
    case End(i) => CanComplete(q, true, i)
    case Drop(i) => CanComplete(q, false, i)
  }

  ghost function Moved(q: Queues, mv: Move): Queues
    requires Valid(q) && CanMove(q, mv)
  {
    match mv
    case Enter(req, op) => assert q.freeq[0] in q.freeq; EnqueueSpec(q, req, op)
    case Begin => StartSpec(q, FirstPend(q.elems, q.pendq))
    case End(i) => CompleteSpec(q, true, i)
    case Drop(i) => CompleteSpec(q, false, i)
  }

  lemma MovedValid(q: Queues, mv: Move)
    requires Valid(q) && CanMove(q, mv)
    ensures Valid(Moved(q, mv))
  {
    match mv
    case Enter(req, op) => EnqueueValid(q, req, op);
    case Begin => StartValid(q, FirstPend(q.elems, q.pendq));
    case End(i) => CompleteValid(q, true, i);
    case Drop(i) => CompleteValid(q, false, i);
  }

  /** The first byte after a request; a flush has none. */
  function Limit(req: Req, op: Op): int {
    if op.Flush? then 0x7fff_ffff_ffff_ffff else req.offset + Bytes(req.iov)
  }

  function Bytes(iov: seq<nat>): nat {
    if iov == [] then 0 else iov[0] + Bytes(iov[1..])
  }

  /** Element `x` is queued with a request that ends at `offset`. */
  ghost predicate QueuedUpTo(q: Queues, x: nat, offset: int) {
    && (x in q.pendq || x in q.busyq) && x < |q.elems| && q.elems[x].req.Some?
    && Limit(q.elems[x].req.value, q.elems[x].op) == offset
  }

  /** Every queued element knows where its request ends. */
  ghost predicate LimitsKnown(q: Queues) {
    forall x | (x in q.pendq || x in q.busyq) && x < |q.elems| && q.elems[x].req.Some? ::
      q.elems[x].block == Limit(q.elems[x].req.value, q.elems[x].op)
  }

  /** The element that a move ends or drops. */
  function Ended(q: Queues, mv: Move): Option<nat> {
    match mv
    case End(i) => if i < |q.busyq| then Some(q.busyq[i]) else None
    case Drop(i) => if i < |q.pendq| then Some(q.pendq[i]) else None
    case _ => None
  }

  /** The move ends or drops a request that ends at `offset`. */
  ghost predicate EndsRequestAt(q: Queues, mv: Move, offset: int) {
    Ended(q, mv).Some? && QueuedUpTo(q, Ended(q, mv).value, offset)
  }

  lemma {:induction false} SumIsBytes(iov: seq<nat>)
    ensures SumLens(iov) == Bytes(iov)
  {
    if iov != [] {
      SumIsBytes(iov[..|iov| - 1]);
      BytesEnd(iov[..|iov| - 1], iov[|iov| - 1]);
      assert iov == iov[..|iov| - 1] + [iov[|iov| - 1]];
    }
  }

  lemma {:induction false} BytesEnd(iov: seq<nat>, n: nat)
    ensures Bytes(iov + [n]) == Bytes(iov) + n
  {
    if iov == [] {
      assert iov + [n] == [n];
    } else {
      assert (iov + [n])[1..] == iov[1..] + [n];
      BytesEnd(iov[1..], n);
    }
  }

  lemma LimitIs(req: Req, op: Op)
    ensures EndOf(req, op) == Limit(req, op)
  {
    SumIsBytes(req.iov);
  }

  lemma EndsAtIff(q: Queues, offset: int)
    requires Valid(q) && LimitsKnown(q)
    ensures EndsAt(q.elems, q.pendq, offset) || EndsAt(q.elems, q.busyq, offset) <==> exists x :: QueuedUpTo(q, x, offset)
  {
    hide Partition, BlockersPresent, Limit;
    if EndsAt(q.elems, q.pendq, offset) {
      var i :| 0 <= i < |q.pendq| && q.pendq[i] < |q.elems| && q.elems[q.pendq[i]].block == offset;
      assert QueuedUpTo(q, q.pendq[i], offset);
    } else if EndsAt(q.elems, q.busyq, offset) {
      var i :| 0 <= i < |q.busyq| && q.busyq[i] < |q.elems| && q.elems[q.busyq[i]].block == offset;
      assert QueuedUpTo(q, q.busyq[i], offset);
    }
    if x :| QueuedUpTo(q, x, offset) {
      if x in q.pendq {
        var i :| 0 <= i < |q.pendq| && q.pendq[i] == x;
      } else {
        var i :| 0 <= i < |q.busyq| && q.busyq[i] == x;
      }
    }
  }

  /** A request is blocked when it enters iff a queued one ends where it begins. */
  lemma EntersBlockedIff(q: Queues, req: Req, op: Op)
    requires Valid(q) && LimitsKnown(q) && q.freeq != []
    ensures q.freeq[0] < |q.elems|
    ensures
      var q', y := EnqueueSpec(q, req, op), q.freeq[0];
      && y in q'.pendq && q'.elems[y].req == Some(req) && q'.elems[y].op == op
      && q'.elems[y].status == if exists x :: QueuedUpTo(q, x, req.offset) then Block else Pend
  {
    EnqueueMoves(q, req, op);
    EndsAtIff(q, req.offset);
    hide Valid, EndsAt, QueuedUpTo;
    var q', y := EnqueueSpec(q, req, op), q.freeq[0];
    assert q'.pendq[|q.pendq|] == y;
  }

  /** What a move does to an element that is pending before and after it. */
  lemma MoveKeeps(q: Queues, mv: Move, y: nat)
    requires Valid(q) && LimitsKnown(q) && CanMove(q, mv) && y in q.pendq && y in Moved(q, mv).pendq
    ensures y < |q.elems| && q.elems[y].req.Some? && |Moved(q, mv).elems| == |q.elems|
    ensures
      var e, e' := q.elems[y], Moved(q, mv).elems[y];
      && e'.req == e.req && e'.op == e.op
      && (e'.status.Block? <==> e.status.Block? && !EndsRequestAt(q, mv, e.req.value.offset))
  {
    PendingHas(q, y);
    hide Valid, LimitsKnown, EnqueueSpec, StartSpec, CompleteSpec, QueuedUpTo;
    match mv
    case Enter(req, op) =>
      EnterKeeps(q, req, op, y);
    case Begin =>
      BeginKeeps(q, FirstPend(q.elems, q.pendq), y);
    case End(i) =>
      assert q.busyq[i] in q.busyq;
      EndKeeps(q, true, i, y);
    case Drop(i) =>
      assert q.pendq[i] in q.pendq;
      EndKeeps(q, false, i, y);
  }

  lemma PendingHas(q: Queues, y: nat)
    requires Valid(q) && y in q.pendq
    ensures y < |q.elems| && q.elems[y].req.Some?
  {
  }

  lemma EnterKeeps(q: Queues, req: Req, op: Op, y: nat)
    requires Valid(q) && q.freeq != [] && y in q.pendq
    ensures q.freeq[0] < |q.elems| == |EnqueueSpec(q, req, op).elems| && y < |q.elems|
    ensures EnqueueSpec(q, req, op).elems[y] == q.elems[y]
  {
    EnqueueMoves(q, req, op);
    hide Partition, BlockersPresent, EndsAt;
  }

  lemma BeginKeeps(q: Queues, i: nat, y: nat)
    requires Valid(q) && i < |q.pendq| && q.pendq[i] < |q.elems| && y in q.pendq && y in StartSpec(q, i).pendq
    ensures |StartSpec(q, i).elems| == |q.elems| && y < |q.elems| && StartSpec(q, i).elems[y] == q.elems[y]
  {
    StartMoves(q, i);
    hide Partition, BlockersPresent;
  }

  lemma EndKeeps(q: Queues, busy: bool, i: nat, y: nat)
    requires Valid(q) && LimitsKnown(q) && CanComplete(q, busy, i) && y in q.pendq && y in CompleteSpec(q, busy, i).pendq
    requires (if busy then q.busyq[i] else q.pendq[i]) in if busy then q.busyq else q.pendq
    ensures y < |q.elems| && q.elems[y].req.Some? && |CompleteSpec(q, busy, i).elems| == |q.elems|
    ensures
      var e, e' := q.elems[y], CompleteSpec(q, busy, i).elems[y];
      var be := if busy then q.busyq[i] else q.pendq[i];
      && e'.req == e.req && e'.op == e.op
      && (e'.status.Block? <==> e.status.Block? && !QueuedUpTo(q, be, e.req.value.offset))
  {
    var be := if busy then q.busyq[i] else q.pendq[i];
    var pendq := if busy then q.pendq else RemoveAt(q.pendq, i);
    var busyq := if busy then RemoveAt(q.busyq, i) else q.busyq;
    Taken(q, busy, i);
    TakenApart(q, be, pendq, busyq);
    hide Partition, BlockersPresent, TakenOut, RemoveAt, Limit;
  }

  lemma LimitsStay(q: Queues, mv: Move)
    requires Valid(q) && LimitsKnown(q) && CanMove(q, mv)
    ensures LimitsKnown(Moved(q, mv))
  {
    hide LimitsKnown, EnqueueSpec, StartSpec, CompleteSpec;
    match mv
    case Enter(req, op) => EnterLimits(q, req, op);
    case Begin => BeginLimits(q, FirstPend(q.elems, q.pendq));
    case End(i) => EndLimits(q, true, i);
    case Drop(i) => EndLimits(q, false, i);
  }

  lemma EnterLimits(q: Queues, req: Req, op: Op)
    requires Valid(q) && LimitsKnown(q) && q.freeq != []
    ensures q.freeq[0] < |q.elems| && LimitsKnown(EnqueueSpec(q, req, op))
  {
    EnqueueMoves(q, req, op);
    LimitIs(req, op);
    hide Valid, EndsAt, Limit, EndOf;
  }

  lemma BeginLimits(q: Queues, i: nat)
    requires Valid(q) && LimitsKnown(q) && i < |q.pendq| && q.pendq[i] < |q.elems|
    ensures LimitsKnown(StartSpec(q, i))
  {
    StartMoves(q, i);
    hide Valid, Limit, RemoveAt;
    assert forall x <- StartSpec(q, i).busyq :: x in q.busyq || x == q.pendq[i];
    assert q.pendq[i] in q.pendq;
  }

  lemma EndLimits(q: Queues, busy: bool, i: nat)
    requires Valid(q) && LimitsKnown(q) && CanComplete(q, busy, i)
    ensures LimitsKnown(CompleteSpec(q, busy, i))
  {
    var be := if busy then q.busyq[i] else q.pendq[i];
    var pendq := if busy then q.pendq else RemoveAt(q.pendq, i);
    var busyq := if busy then RemoveAt(q.busyq, i) else q.busyq;
    Taken(q, busy, i);
    TakenWithin(q, be, pendq, busyq);
    hide Valid, TakenOut, RemoveAt, Limit;
  }

  /** The queues before the first move and after each. */
  ghost predicate Moves(qs: seq<Queues>, mvs: seq<Move>)
    requires |qs| == |mvs| + 1
    decreases |mvs|
  {
    Valid(qs[0]) &&
    (mvs != [] ==> CanMove(qs[0], mvs[0]) && qs[1] == Moved(qs[0], mvs[0]) && Moves(qs[1..], mvs[1..]))
  }

  /** Some move ends or drops a request that ends at `offset`. */
  ghost predicate SomeEnds(qs: seq<Queues>, mvs: seq<Move>, offset: int)
    requires |qs| == |mvs| + 1
  {
    exists k | 0 <= k < |mvs| :: EndsRequestAt(qs[k], mvs[k], offset)
  }

  lemma SomeEndsFirst(qs: seq<Queues>, mvs: seq<Move>, offset: int)
    requires |qs| == |mvs| + 1 && mvs != []
    ensures SomeEnds(qs, mvs, offset) <==> EndsRequestAt(qs[0], mvs[0], offset) || SomeEnds(qs[1..], mvs[1..], offset)
  {
    hide EndsRequestAt;
    if SomeEnds(qs[1..], mvs[1..], offset) {
      var k :| 0 <= k < |mvs[1..]| && EndsRequestAt(qs[1..][k], mvs[1..][k], offset);
      assert EndsRequestAt(qs[k + 1], mvs[k + 1], offset);
    }
    if SomeEnds(qs, mvs, offset) {
      var k :| 0 <= k < |mvs| && EndsRequestAt(qs[k], mvs[k], offset);
      assert k > 0 ==> EndsRequestAt(qs[1..][k - 1], mvs[1..][k - 1], offset);
    }
  }

  /** Element `y` is in the pending queue all the time. */
  ghost predicate AlwaysPending(qs: seq<Queues>, y: nat) {
    forall k | 0 <= k < |qs| :: y in qs[k].pendq
  }

  lemma FirstOfMoves(qs: seq<Queues>, mvs: seq<Move>, y: nat)
    requires |qs| == |mvs| + 1 && mvs != [] && Moves(qs, mvs) && AlwaysPending(qs, y)
    ensures Valid(qs[0]) && CanMove(qs[0], mvs[0]) && qs[1] == Moved(qs[0], mvs[0]) && y in qs[0].pendq && y in qs[1].pendq
    ensures Moves(qs[1..], mvs[1..]) && AlwaysPending(qs[1..], y)
  {
    hide Valid, CanMove, Moved;
  }

  /** While a request stays in the pending queue, it is blocked iff it was blocked before and no request that
      ends where it begins has ended or been dropped meanwhile. */
  lemma {:induction false} BlockedIff(qs: seq<Queues>, mvs: seq<Move>, y: nat)
    requires |qs| == |mvs| + 1 && Moves(qs, mvs) && LimitsKnown(qs[0]) && AlwaysPending(qs, y)
    ensures y < |qs[0].elems| && qs[0].elems[y].req.Some? && y < |qs[|mvs|].elems|
    ensures
      var e, e' := qs[0].elems[y], qs[|mvs|].elems[y];
      e'.req == e.req && (e'.status.Block? <==> e.status.Block? && !SomeEnds(qs, mvs, e.req.value.offset))
    decreases |mvs|
  {
    if mvs == [] {
      PendingHas(qs[0], y);
    } else {
      FirstOfMoves(qs, mvs, y);
      hide *;
      MoveKeeps(qs[0], mvs[0], y);
      LimitsStay(qs[0], mvs[0]);
      BlockedIff(qs[1..], mvs[1..], y);
      SomeEndsFirst(qs, mvs, qs[0].elems[y].req.value.offset);
    }
  }

  /** A blocked request stays in the pending queue until it is dropped or a request that ends where it begins is
      ended or dropped. */
  lemma StaysPending(q: Queues, mv: Move, y: nat)
    requires Valid(q) && CanMove(q, mv) && y in q.pendq && y < |q.elems| && q.elems[y].status.Block?
    requires Ended(q, mv) != Some(y)
    ensures y in Moved(q, mv).pendq
  {
    var q' := Moved(q, mv);
    hide Valid, EndsAt;
    var j :| 0 <= j < |q.pendq| && q.pendq[j] == y;
    match mv
    case Enter(_, _) => assert q'.pendq[j] == y;
    case Begin => StillThere(q.pendq, FirstPend(q.elems, q.pendq), j);
    case End(_) =>
    case Drop(i) => StillThere(q.pendq, i, j);
  }

  lemma StillThere(s: seq<nat>, i: nat, j: nat)
    requires i < |s| && j < |s| && s[i] != s[j]
    ensures s[j] in RemoveAt(s, i)
  {
    assert RemoveAt(s, i)[if j < i then j else j - 1] == s[j];
  }

  /** No move ends or drops a request that ends at `offset`, or drops `y`. */
  ghost predicate LeftAlone(qs: seq<Queues>, mvs: seq<Move>, y: nat, offset: int)
    requires |qs| == |mvs| + 1
  {
    forall k | 0 <= k < |mvs| :: !EndsRequestAt(qs[k], mvs[k], offset) && Ended(qs[k], mvs[k]) != Some(y)
  }

  lemma LeftAloneFirst(qs: seq<Queues>, mvs: seq<Move>, y: nat, offset: int)
    requires |qs| == |mvs| + 1 && mvs != [] && LeftAlone(qs, mvs, y, offset)
    ensures !EndsRequestAt(qs[0], mvs[0], offset) && Ended(qs[0], mvs[0]) != Some(y)
    ensures LeftAlone(qs[1..], mvs[1..], y, offset)
  {
    hide EndsRequestAt, Ended;
  }

  /** Element `y` is pending and blocked, with a request that begins at `offset`. */
  ghost predicate BlockedAt(q: Queues, y: nat, offset: int) {
    && y in q.pendq && y < |q.elems| && q.elems[y].status.Block?
    && q.elems[y].req.Some? && q.elems[y].req.value.offset == offset
  }

  lemma MoveWaits(q: Queues, mv: Move, y: nat, offset: int)
    requires Valid(q) && LimitsKnown(q) && CanMove(q, mv) && BlockedAt(q, y, offset)
    requires !EndsRequestAt(q, mv, offset) && Ended(q, mv) != Some(y)
    ensures LimitsKnown(Moved(q, mv)) && BlockedAt(Moved(q, mv), y, offset)
  {
    hide Valid, CanMove, Moved, LimitsKnown, EndsRequestAt, Ended;
    StaysPending(q, mv, y);
    MoveKeeps(q, mv, y);
    LimitsStay(q, mv);
  }

  lemma {:induction false} BlockedWaits(qs: seq<Queues>, mvs: seq<Move>, y: nat, offset: int)
    requires |qs| == |mvs| + 1 && Moves(qs, mvs) && LimitsKnown(qs[0])
    requires BlockedAt(qs[0], y, offset) && LeftAlone(qs, mvs, y, offset)
    ensures BlockedAt(qs[|mvs|], y, offset)
    decreases |mvs|
  {
    hide Valid, CanMove, Moved, LimitsKnown, BlockedAt, LeftAlone;
    if mvs != [] {
      LeftAloneFirst(qs, mvs, y, offset);
      MoveWaits(qs[0], mvs[0], y, offset);
      BlockedWaits(qs[1..], mvs[1..], y, offset);
    }
  }

  /** Whatever the workers do: a request that enters while a queued one ends where it begins is not begun
      before a request that ends there has ended or been dropped. */
  lemma NotBegunBefore(qs: seq<Queues>, mvs: seq<Move>, x: nat)
    requires |qs| == |mvs| + 1 && Moves(qs, mvs) && LimitsKnown(qs[0])
    requires mvs != [] && mvs[0].Enter? && QueuedUpTo(qs[0], x, mvs[0].req.offset)
    requires LeftAlone(qs[1..], mvs[1..], qs[0].freeq[0], mvs[0].req.offset)
    ensures BlockedAt(qs[|mvs|], qs[0].freeq[0], mvs[0].req.offset) && qs[0].freeq[0] !in qs[|mvs|].busyq
  {
    var y, offset := qs[0].freeq[0], mvs[0].req.offset;
    hide Valid, LimitsKnown, EnqueueSpec, CanMove, QueuedUpTo, LeftAlone, BlockedAt;
    FirstMove(qs[0], mvs[0], qs[1], x);
    LimitsStay(qs[0], mvs[0]);
    BlockedWaits(qs[1..], mvs[1..], y, offset);
    LastValid(qs, mvs);
    BlockedIsIdle(qs[|mvs|], y, offset);
  }

  lemma BlockedIsIdle(q: Queues, y: nat, offset: int)
    requires Valid(q) && BlockedAt(q, y, offset)
    ensures y !in q.busyq
  {
    OnePlaceOnly(q, y);
  }

  /** The request that enters is pending and blocked. */
  lemma FirstMove(q: Queues, mv: Move, q': Queues, x: nat)
    requires Valid(q) && LimitsKnown(q) && CanMove(q, mv) && mv.Enter? && q' == Moved(q, mv) && QueuedUpTo(q, x, mv.req.offset)
    ensures q.freeq != [] && BlockedAt(q', q.freeq[0], mv.req.offset)
  {
    EntersBlockedIff(q, mv.req, mv.op);
    hide Valid, LimitsKnown, QueuedUpTo, EndsAt;
  }

  lemma {:induction false} LastValid(qs: seq<Queues>, mvs: seq<Move>)
    requires |qs| == |mvs| + 1 && Moves(qs, mvs)
    ensures Valid(qs[|mvs|])
    decreases |mvs|
  {
    hide Valid;
    if mvs != [] {
      LastValid(qs[1..], mvs[1..]);
    }
  }

  lemma OnePlaceOnly(q: Queues, y: nat)
    requires Valid(q) && y in q.pendq
    ensures y !in q.busyq
  {
    OnePlace(q, y);
    hide StatusesAgree, BlockersPresent;
  }

  /** When two queued requests end at the same place, the end of one frees the request that waits there, while
      the other is still queued. */
  lemma TwinFrees(q: Queues, i: nat, x: nat, y: nat)
    requires Valid(q) && LimitsKnown(q) && CanMove(q, End(i)) && y in q.pendq && y < |q.elems| && q.elems[y].req.Some?
    requires
      var offset := q.elems[y].req.value.offset;
      QueuedUpTo(q, q.busyq[i], offset) && QueuedUpTo(q, x, offset) && x != q.busyq[i]
    ensures
      var q' := Moved(q, End(i));
      && y in q'.pendq && |q'.elems| == |q.elems| && q'.elems[y].status.Pend?
      && QueuedUpTo(q', x, q.elems[y].req.value.offset)
  {
    assert q.busyq[i] in q.busyq;
    Taken(q, true, i);
    TakenApart(q, q.busyq[i], q.pendq, RemoveAt(q.busyq, i));
    TakenWithin(q, q.busyq[i], q.pendq, RemoveAt(q.busyq, i));
    hide Valid, TakenOut, RemoveAt, Limit;
  }
}
