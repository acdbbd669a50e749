/** Completions, cancellations and register writes of an AHCI port, and whole runs of them: `Next`
    interleaves register writes with the callbacks of the block device. */
module AhciRun {
  import BlockWorker
  import opened AhciCommand
  import opened AhciPort
  import opened AhciScan

  // ---------------------------------------------------------------------------
  // Completion, cancellation and registers
  // ---------------------------------------------------------------------------

  /** What the completion callback reads from the command: whether it is queued, whether nothing has
      been moved yet, whether it is a trim with a nonempty range left, and whether a further round is
      needed after the next one. */
  datatype Completion = Completion(ncq: bool, unmoved: bool, dsm: bool, range: bool, more: bool)

  /** The callback continues the command instead of finishing it. */
  predicate Continues(p: Port, a: nat, err: bool, c: Completion)
    requires a < |p.ioreq|
  {
    !err && p.ioreq[a].more && (c.dsm ==> c.range)
  }

  /** The completion callback, up to the scan that follows unless the command continues. */
  function Completed(p: Port, a: nat, err: bool, c: Completion): Port
    requires a < |p.ioreq| && forall x <- p.iofhd :: x < |p.ioreq|
  {
    var slot := p.ioreq[a].slot;
    var p1 := Release(p, a);
    if Continues(p, a, err, c) then
      assert p.iofhd != [] ==> p.iofhd[0] in p.iofhd;
      Issue(p1, slot, c.ncq && c.unmoved && !c.dsm, c.more)
    else
      CheckStopped(Clear(Reported(p1, slot, err, c.ncq && (err || !p.ioreq[a].more)), slot))
  }

  function Reported(p: Port, slot: nat, err: bool, queued: bool): Port {
    if queued then WriteSdb(p, slot, err) else WriteD2h(p, slot, err)
  }

  /** Cancels the requests of `todo` that the block device gives back.  Once a queued command has
      been seen, the later ones leave `sact` instead of `ci`. */
  function CancelAll(p: Port, todo: seq<nat>, cancelled: set<nat>, queued: set<nat>, ncq: bool): Port
    decreases |todo|
  {
    if todo == [] then p
    else if todo[0] !in cancelled then CancelAll(p, todo[1..], cancelled, queued, ncq)
    else
      var ncq' := ncq || todo[0] in queued;
      CancelAll(Cancel(p, todo[0], ncq'), todo[1..], cancelled, queued, ncq')
  }

  function Cancel(p: Port, a: nat, ncq: bool): Port {
    var slot := SlotOf(p, a);
    var p1 := if ncq then p.(sact := p.sact - {slot}) else p.(ci := p.ci - {slot});
    Release(Clear(p1, slot), a)
  }

  function PortStop(p: Port, cancelled: set<nat>, queued: set<nat>): Port {
    CheckStopped(CancelAll(p, p.iobhd, cancelled, queued, false))
  }

  lemma CheckStoppedInv(p: Port)
    requires Inv(p)
    ensures Inv(CheckStopped(p))
  {
    hide Lists, Exact;
    OthersInv(p, CheckStopped(p));
  }

  lemma CancelInv(p: Port, a: nat, ncq: bool)
    requires Inv(p) && a in p.iobhd
    ensures Inv(Cancel(p, a, ncq))
    ensures forall x :: x in Cancel(p, a, ncq).iobhd <==> x in p.iobhd && x != a
  {
    var p' := Cancel(p, a, ncq);
    RemoveFirstFacts(p.iobhd, a);
    ReleaseKeeps(p, a);
    hide Lists, Carried, RemoveFirst, Unequal;
    SameLists(Release(p, a), p');
  }

  lemma {:induction false} CancelAllInv(p: Port, todo: seq<nat>, cancelled: set<nat>, queued: set<nat>, ncq: bool)
    requires Inv(p) && Unequal(todo) && forall a <- todo :: a in p.iobhd
    ensures Inv(CancelAll(p, todo, cancelled, queued, ncq))
    decreases |todo|
  {
    hide Inv;
    if todo != [] {
      HeadTail(todo);
      if todo[0] in cancelled {
        var ncq' := ncq || todo[0] in queued;
        CancelInv(p, todo[0], ncq');
        CancelAllInv(Cancel(p, todo[0], ncq'), todo[1..], cancelled, queued, ncq');
      } else {
        CancelAllInv(p, todo[1..], cancelled, queued, ncq);
      }
    }
  }

  lemma PortStopInv(p: Port, cancelled: set<nat>, queued: set<nat>)
    requires Inv(p)
    ensures Inv(PortStop(p, cancelled, queued))
  {
    CancelAllInv(p, p.iobhd, cancelled, queued, false);
    CheckStoppedInv(CancelAll(p, p.iobhd, cancelled, queued, false));
  }

  lemma CompletedInv(p: Port, a: nat, err: bool, c: Completion)
    requires Inv(p) && a in p.iobhd
    ensures a < |p.ioreq| && (forall x <- p.iofhd :: x < |p.ioreq|)
    ensures Inv(Completed(p, a, err, c))
  {
    assert a < |p.ioreq| && (forall x <- p.iofhd :: x < |p.ioreq|);
    var slot := p.ioreq[a].slot;
    assert slot == SlotOf(p, a) && slot < SLOTS && slot in Carried(p);
    ReleaseKeeps(p, a);
    hide Lists, Carried, Release, CheckStopped, Reported, Clear;
    var p1 := Release(p, a);
    if Continues(p, a, err, c) {
      ContinuedInv(p, a, slot, c.ncq && c.unmoved && !c.dsm, c.more);
    } else {
      FinishedInv(p, a, slot, err, c.ncq && (err || !p.ioreq[a].more));
    }
  }

  lemma ContinuedInv(p: Port, a: nat, slot: nat, again: bool, more: bool)
    requires Inv(p) && slot in Carried(p) && slot < SLOTS
    requires Lists(Release(p, a)) && Carried(Release(p, a)) == Carried(p) - {slot}
    ensures var p1 := Release(p, a);
            p1.iofhd != [] && p1.iofhd[0] < |p1.ioreq| && Inv(Issue(p1, slot, again, more))
  {
    assert |Release(p, a).ioreq| == IOQSZ;
    hide Lists, Carried;
    var p1 := Release(p, a);
    TakeKeeps(p1, slot, more);
    SameLists(Take(p1, slot, more), Issue(p1, slot, again, more));
  }

  lemma FinishedInv(p: Port, a: nat, slot: nat, err: bool, queued: bool)
    requires Inv(p) && Lists(Release(p, a)) && Carried(Release(p, a)) == Carried(p) - {slot}
    ensures Inv(CheckStopped(Clear(Reported(Release(p, a), slot, err, queued), slot)))
  {
    hide Lists, Carried;
    var p1 := Release(p, a);
    var p2 := Clear(Reported(p1, slot, err, queued), slot);
    SameLists(p1, p2);
    CheckStoppedInv(p2);
  }

  // ---------------------------------------------------------------------------
  // Whole runs
  // ---------------------------------------------------------------------------

  /** Every step is one critical section of the controller's lock, except `BeginCallback`: the block
      device lets go of a request and is about to call back. */
  datatype Step =
    | WriteCi(slots: set<nat>, guest: Guest)
    | WriteCmd(start: bool, ready: bool, clo: bool, cancelled: set<nat>, queued: set<nat>, guest: Guest)
    | WriteSact(slots: set<nat>)
    | ResetPort
    | ResetHba
    | BeginCallback(a: nat)
    | Complete(a: nat, err: bool, c: Completion, guest: Guest)

  ghost predicate Enabled(p: Port, step: Step) {
    match step
    case WriteCi(slots, _) => forall slot <- slots :: slot < SLOTS
    case WriteCmd(_, _, _, cancelled, _, _) => cancelled <= p.outstanding
    case BeginCallback(a) => a in p.outstanding
    case Complete(a, _, _, _) => a in p.iobhd && a !in p.outstanding
    case _ => true
  }

  function CmdWritten(p: Port, start: bool, ready: bool, clo: bool, cancelled: set<nat>, queued: set<nat>): Port {
    var p1 := p.(started := start);
    var p2 := if start then p1 else PortStop(p1, cancelled, queued);
    p2.(ready := ready, busy := if clo then false else p2.busy)
  }

  lemma CmdWrittenInv(p: Port, start: bool, ready: bool, clo: bool, cancelled: set<nat>, queued: set<nat>)
    requires Inv(p)
    ensures Inv(CmdWritten(p, start, ready, clo, cancelled, queued))
  {
    var p1 := p.(started := start);
    OthersInv(p, p1);
    PortStopInv(p1, cancelled, queued);
    hide Lists, Exact, PortStop;
    var p2 := if start then p1 else PortStop(p1, cancelled, queued);
    OthersInv(p2, CmdWritten(p, start, ready, clo, cancelled, queued));
  }

  lemma CiWrittenInv(p: Port, slots: set<nat>)
    requires Inv(p) && forall slot <- slots :: slot < SLOTS
    ensures Inv(p.(ci := p.ci + slots))
  {
    hide Lists, Carried;
    SameLists(p, p.(ci := p.ci + slots));
  }

  ghost predicate Next(p: Port, step: Step, p': Port)
    requires Inv(p) && Enabled(p, step)
  {
    match step
    case WriteCi(slots, guest) => CiWrittenInv(p, slots); Handled(p.(ci := p.ci + slots), guest, p')
    case WriteCmd(start, ready, clo, cancelled, queued, guest) =>
      CmdWrittenInv(p, start, ready, clo, cancelled, queued);
      Handled(CmdWritten(p, start, ready, clo, cancelled, queued), guest, p')
    case WriteSact(slots) => p' == p.(sact := p.sact + slots)
    case ResetPort => p' == if p.started then p else PortReset(p)
    case ResetHba => p' == PortReset(p.(started := false, ready := false))
    case BeginCallback(a) => p' == p.(outstanding := p.outstanding - {a})
    case Complete(a, err, c, guest) =>
      CompletedInv(p, a, err, c);
      var p1 := Completed(p, a, err, c);
      if Continues(p, a, err, c) then p' == p1 else Handled(p1, guest, p')
  }

  lemma HandledInv(p: Port, guest: Guest, p': Port)
    requires Inv(p) && Handled(p, guest, p')
    ensures Inv(p')
  {
  }

  lemma BeginCallbacksInv(p: Port, begun: set<nat>)
    requires Inv(p)
    ensures Inv(p.(outstanding := p.outstanding - begun))
  {
    var p' := p.(outstanding := p.outstanding - begun);
    hide Unequal;
    assert forall x :: SlotOf(p', x) == SlotOf(p, x);
    hide SlotOf;
    assert Carried(p') == Carried(p);
  }

  lemma NextInv(p: Port, step: Step, p': Port)
    requires Inv(p) && Enabled(p, step) && Next(p, step, p')
    ensures Inv(p')
  {
    hide Lists, Exact;
    match step
    case WriteCi(slots, guest) =>
      CiWrittenInv(p, slots);
      HandledInv(p.(ci := p.ci + slots), guest, p');
    case WriteCmd(start, ready, clo, cancelled, queued, guest) =>
      CmdWrittenInv(p, start, ready, clo, cancelled, queued);
      HandledInv(CmdWritten(p, start, ready, clo, cancelled, queued), guest, p');
    case BeginCallback(a) => BeginCallbacksInv(p, {a});
    case Complete(a, err, c, guest) =>
      CompletedInv(p, a, err, c);
      if !Continues(p, a, err, c) {
        HandledInv(Completed(p, a, err, c), guest, p');
      }
    case _ => OthersInv(p, p');
  }

  /** A run: the port before the first step and after each step. */
  ghost predicate Run(ports: seq<Port>, steps: seq<Step>)
    requires |ports| == |steps| + 1 && Inv(ports[0])
    decreases |steps|
  {
    steps != [] ==>
      && Enabled(ports[0], steps[0]) && Next(ports[0], steps[0], ports[1])
      && (NextInv(ports[0], steps[0], ports[1]); Run(ports[1..], steps[1..]))
  }

  /** What setting up a port leaves behind: every request free and nothing issued. */
  ghost predicate Init(p: Port) {
    && !p.started && p.ci == {} && p.pending == {} && p.ccs == 0 && p.outstanding == {}
    && p.iobhd == [] && p.iofhd == seq(IOQSZ, i => i) && |p.ioreq| == IOQSZ
  }

  lemma InitInv(p: Port)
    requires Init(p)
    ensures Inv(p)
  {
    assert forall i: nat | i < IOQSZ :: p.iofhd[i] == i;
  }

  ghost predicate PendingExact(p: Port) {
    && (forall slot :: slot in p.pending <==> exists a :: a in p.iobhd && SlotOf(p, a) == slot)
    && (forall a, b | a in p.iobhd && b in p.iobhd && SlotOf(p, a) == SlotOf(p, b) :: a == b)
    && p.iofhd != [] && |p.iobhd| <= SLOTS && |p.outstanding| < BlockWorker.QueueSize()
  }

  lemma InvIsExact(p: Port)
    requires Inv(p)
    ensures PendingExact(p)
  {
    FewBusy(p);
    Room(p);
  }

  lemma {:induction false} RunInv(ports: seq<Port>, steps: seq<Step>, k: nat)
    requires |ports| == |steps| + 1 && Inv(ports[0]) && Run(ports, steps) && k <= |steps|
    ensures Inv(ports[k])
    decreases |steps|
  {
    if k > 0 {
      NextInv(ports[0], steps[0], ports[1]);
      hide Inv;
      RunInv(ports[1..], steps[1..], k - 1);
    }
  }

  /** At every release of the lock, a slot is pending iff exactly one busy request carries it; so a
      request is free for the next command and the block device accepts it. */
  lemma PendingIsExact(ports: seq<Port>, steps: seq<Step>, k: nat)
    requires |ports| == |steps| + 1 && k <= |steps|
    requires Init(ports[0]) && (InitInv(ports[0]); Run(ports, steps))
    ensures PendingExact(ports[k])
  {
    InitInv(ports[0]);
    RunInv(ports, steps, k);
    InvIsExact(ports[k]);
  }

  lemma FewOutstanding(p: Port)
    requires Inv(p)
    ensures |p.outstanding| <= SLOTS
  {
    FewBusy(p);
    SetOfSeqSize(p.outstanding, p.iobhd);
  }
}
