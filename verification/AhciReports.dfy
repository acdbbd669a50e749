/** What the guest sees of its commands: the issue and active bits, the busy status and the wait for an
    error to be cleared, from the issue of a command to its completion. */
module AhciReports {
  import opened AhciCommand
  import opened AhciPort
  import opened AhciScan
  import opened AhciRun

  // ---------------------------------------------------------------------------
  // Completion
  // ---------------------------------------------------------------------------

  /** The port is stopped and the command in `slot` was the last one in flight. */
  predicate LastOfStopped(p: Port, slot: nat) {
    !p.started && p.pending <= {slot}
  }

  /** What the guest sees when a command is finished.  Without an error, a command that is not queued leaves
      `ci` and ends the busy status, and a queued one leaves `sact`.  An error leaves the bit set and, if it
      can be reported, makes the port wait for the guest to clear it.  A stopped port that becomes idle
      forgets everything. */
  predicate CompletionSeen(p: Port, slot: nat, err: bool, queued: bool, p': Port) {
    && p'.pending == p.pending - {slot} && p'.busy == (queued && p.busy)
    && p'.started == p.started && p'.ready == p.ready && p'.reset == p.reset
    && if LastOfStopped(p, slot) then p'.ci == {} && p'.sact == {} && !p'.waitforclear
       else
         && p'.ci == (if err || queued then p.ci else p.ci - {slot})
         && p'.sact == (if err || !queued then p.sact else p.sact - {slot})
         && p'.waitforclear == (p.waitforclear || (err && p.ready))
  }

  lemma CompletionMeans(p: Port, a: nat, err: bool, c: Completion)
    requires Inv(p) && a in p.iobhd && a < |p.ioreq|
    requires err || !p.ioreq[a].more || (c.dsm && !c.range)
    ensures forall x <- p.iofhd :: x < |p.ioreq|
    ensures p.ioreq[a].slot in p.pending
    ensures CompletionSeen(p, p.ioreq[a].slot, err, c.ncq && (err || !p.ioreq[a].more), Completed(p, a, err, c))
    ensures Completed(p, a, err, c).iobhd == Release(p, a).iobhd && Completed(p, a, err, c).ioreq == p.ioreq
  {
    CompletedInv(p, a, err, c);
    assert SlotOf(p, a) in Carried(p);
    hide Inv, RemoveFirst, Carried, CompletionSeen;
    FinishedSeen(Release(p, a), p.ioreq[a].slot, err, c.ncq && (err || !p.ioreq[a].more));
    hide Reported, CheckStopped;
    SameSeen(p, Release(p, a), p.ioreq[a].slot, err, c.ncq && (err || !p.ioreq[a].more), Completed(p, a, err, c));
  }

  lemma FinishedSeen(p: Port, slot: nat, err: bool, queued: bool)
    ensures var p' := CheckStopped(Clear(Reported(p, slot, err, queued), slot));
            CompletionSeen(p, slot, err, queued, p') && p'.iobhd == p.iobhd && p'.ioreq == p.ioreq
  {
    assert p.pending <= {slot} <==> p.pending - {slot} == {};
  }

  lemma SameSeen(p: Port, p1: Port, slot: nat, err: bool, queued: bool, p': Port)
    requires CompletionSeen(p1, slot, err, queued, p')
    requires p1 == p.(iobhd := p1.iobhd, iofhd := p1.iofhd, outstanding := p1.outstanding)
    ensures CompletionSeen(p, slot, err, queued, p')
  {
  }

  // ---------------------------------------------------------------------------
  // Issue
  // ---------------------------------------------------------------------------

  /** The command is answered in the same step: its slot leaves `ci`. */
  predicate Answered(cmd: Command) {
    match cmd
    case NotH2D => false
    case Control(_) => true
    case Immediate(error) => !error
    case Transfer(ncq, _) => ncq
    case Flush => false
    case Trim(ncq, range, _) => ncq || !range
    case AtapiRead(empty, _) => empty
  }

  /** The command goes to the block device. */
  predicate Forwarded(cmd: Command) {
    cmd.Transfer? || cmd.Flush? || (cmd.Trim? && cmd.range) || cmd.AtapiRead?
  }

  /** What the guest sees when the command in `slot` is handled on a started port: the slot leaves `ci` iff the
      command is answered at once, the port stays busy iff the device has to finish it first, and only a
      reported error makes it wait. */
  predicate IssueSeen(p: Port, slot: nat, cmd: Command, p': Port) {
    && p'.ci == (if Answered(cmd) then p.ci - {slot} else p.ci)
    && p'.busy == (if cmd.NotH2D? then p.busy
                   else if cmd.Control? then p.busy && (cmd.srst || !p.reset)
                   else Forwarded(cmd) && !Answered(cmd))
    && p'.waitforclear == (p.waitforclear || (cmd.Immediate? && cmd.error && p.ready))
    && p'.reset == (if cmd.Control? then cmd.srst else p.reset)
    && p'.sact == (if cmd.Control? && !cmd.srst && p.reset then {} else p.sact)
    && p'.started == p.started && p'.ready == p.ready
  }

  /** A forwarded command takes the first free request. */
  predicate RequestTaken(p: Port, slot: nat, cmd: Command, p': Port)
    requires p.iofhd != [] && p.iofhd[0] < |p.ioreq|
  {
    var a := p.iofhd[0];
    if Forwarded(cmd) then
      && p'.pending == p.pending + {slot} && p'.iobhd == [a] + p.iobhd && p'.iofhd == p.iofhd[1..]
      && p'.ioreq == p.ioreq[a := Ioreq(slot, !cmd.Flush? && cmd.more)] && p'.outstanding == p.outstanding + {a}
    else
      && p'.pending == p.pending && p'.iobhd == p.iobhd && p'.iofhd == p.iofhd
      && p'.ioreq == p.ioreq && p'.outstanding == p.outstanding
  }

  lemma IssueMeans(p: Port, slot: nat, cmd: Command)
    requires Inv(p) && p.started && slot < SLOTS && slot in p.ci && slot !in p.pending
    ensures p.iofhd != [] && p.iofhd[0] < |p.ioreq|
    ensures IssueSeen(p, slot, cmd, HandleSlot(p, slot, cmd)) && RequestTaken(p, slot, cmd, HandleSlot(p, slot, cmd))
  {
    Room(p);
    hide Inv, HandleSlot, IssueSeen, RequestTaken;
    if Forwarded(cmd) {
      ForwardedSeen(p, slot, cmd);
    } else {
      NotForwardedSeen(p, slot, cmd);
    }
  }

  lemma ForwardedSeen(p: Port, slot: nat, cmd: Command)
    requires p.iofhd != [] && p.iofhd[0] < |p.ioreq| && Forwarded(cmd)
    ensures IssueSeen(p, slot, cmd, HandleSlot(p, slot, cmd)) && RequestTaken(p, slot, cmd, HandleSlot(p, slot, cmd))
  {
    hide CheckStopped;
    var b := p.(busy := true);
    assert HandleSlot(p, slot, cmd) == HandleCommand(b, slot, cmd);
    hide HandleSlot, IssueSeen, RequestTaken;
    match cmd
    case Flush => TakenSeen(p, slot, cmd, b);
    case AtapiRead(empty, _) => TakenSeen(p, slot, cmd, if empty then WriteD2h(b, slot, false) else b);
    case _ => TransferSeen(p, slot, cmd);
  }

  lemma TakenSeen(p: Port, slot: nat, cmd: Command, b: Port)
    requires p.iofhd != [] && p.iofhd[0] < |p.ioreq| && (cmd.Flush? || cmd.AtapiRead?)
    requires b == if cmd.AtapiRead? && cmd.empty then p.(busy := false, ci := p.ci - {slot}) else p.(busy := true)
    ensures var p' := Take(b, slot, !cmd.Flush? && cmd.more); IssueSeen(p, slot, cmd, p') && RequestTaken(p, slot, cmd, p')
  {
  }

  lemma TransferSeen(p: Port, slot: nat, cmd: Command)
    requires p.iofhd != [] && p.iofhd[0] < |p.ioreq| && (cmd.Transfer? || (cmd.Trim? && cmd.range))
    ensures var p' := Issue(p.(busy := true), slot, cmd.ncq, cmd.more);
            IssueSeen(p, slot, cmd, p') && RequestTaken(p, slot, cmd, p')
  {
  }

  lemma NotForwardedSeen(p: Port, slot: nat, cmd: Command)
    requires p.iofhd != [] && p.iofhd[0] < |p.ioreq| && !Forwarded(cmd) && p.started && slot !in p.pending
    ensures IssueSeen(p, slot, cmd, HandleSlot(p, slot, cmd)) && RequestTaken(p, slot, cmd, HandleSlot(p, slot, cmd))
  {
    hide Take, Issue;
    assert p.pending - {slot} == p.pending;
  }

  // ---------------------------------------------------------------------------
  // Between issue and completion
  // ---------------------------------------------------------------------------

  /** From `p` to `q` nothing was set for the guest, and the commands in flight were left alone. */
  ghost predicate Calm(p: Port, q: Port) {
    && q.ci <= p.ci && q.sact <= p.sact && q.started == p.started && q.ready == p.ready
    && (!p.started ==> q == p)
    && (forall a <- p.iobhd :: a in q.iobhd && SlotOf(q, a) == SlotOf(p, a))
    && (forall slot <- p.pending :: slot in q.pending && (slot in p.ci ==> slot in q.ci))
  }

  lemma CalmOn(p: Port, q: Port, r: Port)
    requires Calm(p, q) && Calm(q, r)
    ensures Calm(p, r)
  {
    hide SlotOf;
  }

  lemma HandleSlotCalm(p: Port, slot: nat, cmd: Command)
    requires Inv(p) && p.started && slot < SLOTS && slot in p.ci && slot !in p.pending
    ensures p.iofhd != [] && p.iofhd[0] < |p.ioreq| && Calm(p, HandleSlot(p, slot, cmd))
    ensures HandleSlot(p, slot, cmd).started
  {
    IssueMeans(p, slot, cmd);
    assert p.iofhd[0] in p.iofhd;
    assert p.iofhd[0] !in p.iobhd;
    hide Inv, HandleSlot;
    var q := HandleSlot(p, slot, cmd);
    forall a | a in p.iobhd
      ensures a in q.iobhd && SlotOf(q, a) == SlotOf(p, a)
    {
    }
  }

  lemma IterateCalm(p: Port, guest: Guest)
    requires Inv(p) && p.started
    ensures Calm(p, Iterate(p, guest)) && Iterate(p, guest).started
  {
    Room(p);
    assert p.iofhd[0] in p.iofhd;
    if p.ccs in Unissued(p) {
      HandleSlotCalm(p, p.ccs, guest[p.ccs]);
    }
    hide Inv, HandleSlot;
  }

  lemma {:induction false} ScanCalm(p: Port, guest: Guest, n: nat)
    requires Inv(p) && p.started
    ensures Calm(p, Scan(p, guest, n)) && Scan(p, guest, n).started
  {
    hide Calm, Inv, Iterate;
    if n == 0 {
      CalmSame(p, p);
    } else {
      var q := Scan(p, guest, n - 1);
      ScanCalm(p, guest, n - 1);
      IterateCalm(q, guest);
      CalmOn(p, q, Iterate(q, guest));
    }
  }

  lemma CalmSame(p: Port, q: Port)
    requires q == p
    ensures Calm(p, q)
  {
  }

  lemma HandledCalm(p: Port, guest: Guest, q: Port)
    requires Inv(p) && Handled(p, guest, q)
    ensures Calm(p, q)
  {
    hide Calm, Inv, Scanning;
    if p.started {
      var n: nat :| q == Scan(p, guest, n) && !Scanning(q);
      ScanCalm(p, guest, n);
    } else {
      CalmSame(p, p);
    }
  }

  /** What the guest writes to `ci` and `sact` in a step. */
  function CiSet(step: Step): set<nat> {
    if step.WriteCi? then step.slots else {}
  }

  function SactSet(step: Step): set<nat> {
    if step.WriteSact? then step.slots else {}
  }

  /** The step ends the command of request `a`, takes it back or stops the port. */
  predicate Ends(step: Step, a: nat) {
    (step.Complete? && step.a == a) || (step.WriteCmd? && !step.start) || step.ResetHba?
  }

  /** Whether the port is started and can report, after a step: as the guest last wrote, or not after a reset of the
      controller.  Bits that the guest writes to `sact`, or to `ci` of a stopped port, are set. */
  predicate Registers(p: Port, step: Step, p': Port) {
    && p'.started == (if step.WriteCmd? then step.start else p.started && !step.ResetHba?)
    && p'.ready == (if step.WriteCmd? then step.ready else p.ready && !step.ResetHba?)
    && (step.WriteSact? ==> step.slots <= p'.sact) && (step.WriteCi? && !p.started ==> step.slots <= p'.ci)
  }

  /** One step as the guest sees it: it alone sets bits, and a command in flight on a started port stays in
      flight, with its issue bit, until the step that ends it. */
  ghost predicate StepSeen(p: Port, step: Step, p': Port) {
    && p'.ci <= p.ci + CiSet(step) && p'.sact <= p.sact + SactSet(step) && Registers(p, step, p')
    && forall a <- p.iobhd | p.started && !Ends(step, a) ::
         && a in p'.iobhd && SlotOf(p', a) == SlotOf(p, a) && SlotOf(p, a) in p'.pending
         && (SlotOf(p, a) in p.ci ==> SlotOf(p, a) in p'.ci)
  }

  lemma CalmSeen(p: Port, step: Step, q: Port, p': Port)
    requires Inv(p) && StepSeen(p, step, q) && Calm(q, p') && !step.WriteSact?
    ensures StepSeen(p, step, p')
  {
    hide Inv, SlotOf, Ends;
  }

  /** Every other busy request stays busy when `a` is released, and carries a pending slot of its own. */
  lemma OthersBusy(p: Port, a: nat)
    requires Inv(p) && a in p.iobhd
    ensures a < |p.ioreq| && (forall x <- p.iofhd :: x < |p.ioreq|) && Lists(Release(p, a))
    ensures forall x | x in p.iobhd && x != a ::
              && SlotOf(p, x) != SlotOf(p, a) && SlotOf(p, x) in p.pending && x in Release(p, a).iobhd && x < |p.ioreq|
  {
    RemoveFirstFacts(p.iobhd, a);
    ReleaseKeeps(p, a);
    forall x | x in p.iobhd && x != a
      ensures SlotOf(p, x) in p.pending
    {
      assert SlotOf(p, x) in Carried(p);
    }
    hide RemoveFirst, Unequal, SlotOf;
  }

  /** A completion leaves the other commands in flight alone. */
  lemma CompletedSeen(p: Port, step: Step)
    requires Inv(p) && step.Complete? && step.a in p.iobhd
    ensures step.a < |p.ioreq| && (forall x <- p.iofhd :: x < |p.ioreq|)
    ensures StepSeen(p, step, Completed(p, step.a, step.err, step.c))
  {
    var a := step.a;
    CompletedInv(p, a, step.err, step.c);
    OthersBusy(p, a);
    if Continues(p, a, step.err, step.c) {
      hide Inv, Completed, Lists, StepSeen, Release;
      ContinuedSeen(p, step);
    } else {
      CompletionMeans(p, a, step.err, step.c);
      hide Inv, Completed, Release, Lists, CompletionSeen, StepSeen;
      FinishedStep(p, step, Completed(p, a, step.err, step.c));
    }
  }

  lemma FinishedStep(p: Port, step: Step, p': Port)
    requires step.Complete? && step.a < |p.ioreq| && p'.iobhd == Release(p, step.a).iobhd && p'.ioreq == p.ioreq
    requires exists err, queued :: CompletionSeen(p, SlotOf(p, step.a), err, queued, p')
    requires forall x | x in p.iobhd && x != step.a ::
               SlotOf(p, x) != SlotOf(p, step.a) && SlotOf(p, x) in p.pending && x in Release(p, step.a).iobhd
    ensures StepSeen(p, step, p')
  {
    hide Release;
  }

  lemma ContinuedSeen(p: Port, step: Step)
    requires step.Complete? && step.a < |p.ioreq| && (forall x <- p.iofhd :: x < |p.ioreq|) && Lists(Release(p, step.a))
    requires Continues(p, step.a, step.err, step.c)
    requires forall x | x in p.iobhd && x != step.a ::
               && SlotOf(p, x) != SlotOf(p, step.a) && SlotOf(p, x) in p.pending && x in Release(p, step.a).iobhd
               && x < |p.ioreq|
    ensures StepSeen(p, step, Completed(p, step.a, step.err, step.c))
  {
    var p1 := Release(p, step.a);
    assert p1.iofhd[0] in p1.iofhd;
    var b := p1.iofhd[0];
    assert b !in p1.iobhd && p1.ioreq == p.ioreq && b < |p.ioreq|;
    hide Lists, RemoveFirst;
    ContinuedIs(p, step.a, step.c, b);
    var p' := Completed(p, step.a, step.err, step.c);
    hide Completed, Release;
    forall x | x in p.iobhd && x != step.a
      ensures x in p'.iobhd && SlotOf(p', x) == SlotOf(p, x)
    {
    }
  }

  /** A continued command takes the next free request and is acknowledged again if it is queued and has moved nothing. */
  lemma ContinuedIs(p: Port, a: nat, c: Completion, b: nat)
    requires a < |p.ioreq| && (forall x <- p.iofhd :: x < |p.ioreq|) && Continues(p, a, false, c)
    requires Release(p, a).iofhd != [] && Release(p, a).iofhd[0] == b && b < |p.ioreq|
    ensures
      var p', slot := Completed(p, a, false, c), p.ioreq[a].slot;
      && p'.iobhd == [b] + Release(p, a).iobhd && p'.ioreq == p.ioreq[b := Ioreq(slot, c.more)]
      && p'.pending == p.pending + {slot} && p'.sact == p.sact && p'.started == p.started && p'.ready == p.ready
      && p'.ci == (if c.ncq && c.unmoved && !c.dsm then p.ci - {slot} else p.ci)
  {
    var p1 := Release(p, a);
    assert Completed(p, a, false, c) == Issue(p1, p.ioreq[a].slot, c.ncq && c.unmoved && !c.dsm, c.more);
    hide Completed, RemoveFirst;
  }

  lemma StepMeans(p: Port, step: Step, p': Port)
    requires Inv(p) && Enabled(p, step) && Next(p, step, p')
    ensures StepSeen(p, step, p')
  {
    hide Inv, StepSeen;
    InFlight(p);
    match step
    case WriteCi(_, _) => CiStep(p, step, p');
    case WriteCmd(_, _, _, _, _, _) => CmdStep(p, step, p');
    case Complete(_, _, _, _) => CompleteStep(p, step, p');
    case WriteSact(_) => WrittenSeen(p, step, p');
    case ResetPort => WrittenSeen(p, step, p');
    case ResetHba => WrittenSeen(p, step, p');
    case BeginCallback(_) => WrittenSeen(p, step, p');
  }

  lemma CiStep(p: Port, step: Step, p': Port)
    requires Inv(p) && Enabled(p, step) && Next(p, step, p') && step.WriteCi?
    ensures StepSeen(p, step, p')
  {
    hide Inv, StepSeen, Handled;
    InFlight(p);
    var q := p.(ci := p.ci + step.slots);
    CiWrittenInv(p, step.slots);
    WrittenSeen(p, step, q);
    ThenScanned(p, step, q, step.guest, p');
  }

  lemma CmdStep(p: Port, step: Step, p': Port)
    requires Inv(p) && Enabled(p, step) && Next(p, step, p') && step.WriteCmd?
    ensures StepSeen(p, step, p')
  {
    hide Inv, StepSeen, Handled, CmdWritten;
    CmdWrittenInv(p, step.start, step.ready, step.clo, step.cancelled, step.queued);
    CmdSeen(p, step);
    ThenScanned(p, step, CmdWritten(p, step.start, step.ready, step.clo, step.cancelled, step.queued), step.guest, p');
  }

  lemma CompleteStep(p: Port, step: Step, p': Port)
    requires Inv(p) && Enabled(p, step) && Next(p, step, p') && step.Complete?
    ensures StepSeen(p, step, p')
  {
    hide Inv, StepSeen, Handled, Completed;
    CompletedInv(p, step.a, step.err, step.c);
    CompletedSeen(p, step);
    if !Continues(p, step.a, step.err, step.c) {
      ThenScanned(p, step, Completed(p, step.a, step.err, step.c), step.guest, p');
    }
  }

  lemma ThenScanned(p: Port, step: Step, q: Port, guest: Guest, p': Port)
    requires Inv(p) && StepSeen(p, step, q) && Inv(q) && Handled(q, guest, p') && !step.WriteSact?
    ensures StepSeen(p, step, p')
  {
    hide Inv, StepSeen, Calm, Handled;
    HandledCalm(q, guest, p');
    CalmSeen(p, step, q, p');
  }

  lemma InFlight(p: Port)
    requires Inv(p)
    ensures forall a <- p.iobhd :: SlotOf(p, a) in p.pending
  {
    forall a | a in p.iobhd
      ensures SlotOf(p, a) in p.pending
    {
      assert SlotOf(p, a) in Carried(p);
    }
  }

  lemma WrittenSeen(p: Port, step: Step, q: Port)
    requires forall a <- p.iobhd :: SlotOf(p, a) in p.pending
    requires q.iobhd == p.iobhd && q.ioreq == p.ioreq && q.pending == p.pending
    requires p.ci <= q.ci <= p.ci + CiSet(step) && q.sact <= p.sact + SactSet(step) && Registers(p, step, q)
    ensures StepSeen(p, step, q)
  {
  }

  lemma CmdSeen(p: Port, step: Step)
    requires Inv(p) && step.WriteCmd?
    ensures StepSeen(p, step, CmdWritten(p, step.start, step.ready, step.clo, step.cancelled, step.queued))
  {
    InFlight(p);
    CmdMeans(p, step.start, step.ready, step.clo, step.cancelled, step.queued);
    var q := CmdWritten(p, step.start, step.ready, step.clo, step.cancelled, step.queued);
    assert step.start ==> q.iobhd == p.iobhd && q.ioreq == p.ioreq;
    hide Inv, CmdWritten, SlotsBack, FirstQueued;
    if step.start {
      hide StepSeen;
      WrittenSeen(p, step, q);
    } else {
      assert q.ci <= p.ci && q.sact <= p.sact;
      hide SlotOf;
    }
  }

  lemma {:induction false} CancelShrinks(p: Port, todo: seq<nat>, cancelled: set<nat>, queued: set<nat>, ncq: bool)
    ensures
      var q := CancelAll(p, todo, cancelled, queued, ncq);
      q.ci <= p.ci && q.sact <= p.sact && q.started == p.started && q.ready == p.ready && q.busy == p.busy
    decreases |todo|
  {
    if todo != [] {
      if todo[0] in cancelled {
        var ncq' := ncq || todo[0] in queued;
        CancelShrinks(Cancel(p, todo[0], ncq'), todo[1..], cancelled, queued, ncq');
      } else {
        CancelShrinks(p, todo[1..], cancelled, queued, ncq);
      }
    }
  }

  // ---------------------------------------------------------------------------
  // Stopping the port
  // ---------------------------------------------------------------------------

  /** The position of the first request that is taken back and belongs to a queued command, or the length. */
  function FirstQueued(todo: seq<nat>, cancelled: set<nat>, queued: set<nat>): (m: nat)
    ensures m <= |todo|
  {
    if todo == [] || (todo[0] in cancelled && todo[0] in queued) then 0 else 1 + FirstQueued(todo[1..], cancelled, queued)
  }

  /** The slots of the requests of `s` that are taken back. */
  ghost function SlotsBack(p: Port, s: seq<nat>, cancelled: set<nat>): set<nat> {
    set a | a in s && a in cancelled :: SlotOf(p, a)
  }

  lemma SlotsBackCons(p: Port, a: nat, s: seq<nat>, cancelled: set<nat>)
    ensures SlotsBack(p, [a] + s, cancelled) == (if a in cancelled then {SlotOf(p, a)} else {}) + SlotsBack(p, s, cancelled)
  {
    hide SlotOf;
    assert forall x :: x in [a] + s <==> x == a || x in s;
  }

  lemma SlotsBackSame(p: Port, q: Port, s: seq<nat>, cancelled: set<nat>)
    requires q.ioreq == p.ioreq
    ensures SlotsBack(q, s, cancelled) == SlotsBack(p, s, cancelled)
  {
    assert forall a :: SlotOf(q, a) == SlotOf(p, a);
    hide SlotOf;
  }

  /** Stopping a port takes back the requests that the block device gives up.  In the order of the list, their slots leave
      `ci` up to the first one of a queued command, and `sact` from there on. */
  lemma {:induction false} CancelMeans(p: Port, todo: seq<nat>, cancelled: set<nat>, queued: set<nat>, ncq: bool)
    ensures
      var q := CancelAll(p, todo, cancelled, queued, ncq);
      var m := if ncq then 0 else FirstQueued(todo, cancelled, queued);
      && q.ioreq == p.ioreq && q.pending == p.pending - SlotsBack(p, todo, cancelled)
      && q.ci == p.ci - SlotsBack(p, todo[..m], cancelled) && q.sact == p.sact - SlotsBack(p, todo[m..], cancelled)
    decreases |todo|
  {
    if todo != [] {
      var a, rest := todo[0], todo[1..];
      var ncq' := ncq || (a in cancelled && a in queued);
      var p1 := if a in cancelled then Cancel(p, a, ncq') else p;
      CancelMeans(p1, rest, cancelled, queued, ncq');
      assert CancelAll(p, todo, cancelled, queued, ncq) == CancelAll(p1, rest, cancelled, queued, ncq');
      var m' := if ncq' then 0 else FirstQueued(rest, cancelled, queued);
      CancelledOne(p, a, rest, m', cancelled, ncq', p1);
      var m := if ncq then 0 else FirstQueued(todo, cancelled, queued);
      assert (if m == 0 then ncq' && m' == 0 else m == m' + 1 <= |todo|) && (a in cancelled ==> ncq' == (m == 0));
      hide CancelAll, Cancel, SlotsBack, FirstQueued;
      SplitBack(p, todo, m, m', cancelled, ncq');
      var slots := if a in cancelled then {SlotOf(p, a)} else {};
      hide SlotOf;
      MinusBoth(p.pending, slots, SlotsBack(p, rest, cancelled));
      MinusBoth(p.ci, if ncq' then {} else slots, SlotsBack(p, rest[..m'], cancelled));
      MinusBoth(p.sact, if ncq' then slots else {}, SlotsBack(p, rest[m'..], cancelled));
    }
  }

  lemma MinusBoth(a: set<nat>, b: set<nat>, c: set<nat>)
    ensures (a - b) - c == a - (b + c) && a - {} == a
  {
  }

  lemma SplitBack(p: Port, todo: seq<nat>, m: nat, m': nat, cancelled: set<nat>, ncq': bool)
    requires todo != [] && (if m == 0 then ncq' && m' == 0 else m == m' + 1 <= |todo|) && (todo[0] in cancelled ==> ncq' == (m == 0))
    ensures
      var slots, rest := if todo[0] in cancelled then {SlotOf(p, todo[0])} else {}, todo[1..];
      && SlotsBack(p, todo, cancelled) == slots + SlotsBack(p, rest, cancelled)
      && SlotsBack(p, todo[..m], cancelled) == (if ncq' then {} else slots) + SlotsBack(p, rest[..m'], cancelled)
      && SlotsBack(p, todo[m..], cancelled) == (if ncq' then slots else {}) + SlotsBack(p, rest[m'..], cancelled)
  {
    var a, rest := todo[0], todo[1..];
    assert todo == [a] + rest;
    SlotsBackCons(p, a, rest, cancelled);
    SlotsBackCons(p, a, rest[..m'], cancelled);
    if m == 0 {
      assert todo[..0] == [] && rest[..0] == [] && todo[0..] == todo && rest[0..] == rest;
    } else {
      assert todo[..m] == [a] + rest[..m'] && todo[m..] == rest[m'..];
    }
    hide SlotOf;
  }

  lemma CancelledOne(p: Port, a: nat, rest: seq<nat>, m: nat, cancelled: set<nat>, ncq: bool, p1: Port)
    requires m <= |rest| && p1 == if a in cancelled then Cancel(p, a, ncq) else p
    ensures p1.ioreq == p.ioreq
    ensures SlotsBack(p1, rest, cancelled) == SlotsBack(p, rest, cancelled)
    ensures SlotsBack(p1, rest[..m], cancelled) == SlotsBack(p, rest[..m], cancelled)
    ensures SlotsBack(p1, rest[m..], cancelled) == SlotsBack(p, rest[m..], cancelled)
    ensures
      var slots := if a in cancelled then {SlotOf(p, a)} else {};
      && p1.pending == p.pending - slots
      && p1.ci == (if ncq then p.ci else p.ci - slots) && p1.sact == (if ncq then p.sact - slots else p.sact)
  {
    SlotsBackSame(p, p1, rest, cancelled);
    SlotsBackSame(p, p1, rest[..m], cancelled);
    SlotsBackSame(p, p1, rest[m..], cancelled);
    hide RemoveFirst, SlotsBack;
  }

  /** What stopping a port, or writing its command register otherwise, leaves behind. */
  lemma CmdMeans(p: Port, start: bool, ready: bool, clo: bool, cancelled: set<nat>, queued: set<nat>)
    requires Inv(p)
    ensures
      var q := CmdWritten(p, start, ready, clo, cancelled, queued);
      var m := FirstQueued(p.iobhd, cancelled, queued);
      && q.started == start && q.ready == ready && q.busy == (p.busy && !clo)
      && if start then q.ci == p.ci && q.sact == p.sact && q.pending == p.pending && q.waitforclear == p.waitforclear
         else if p.pending <= SlotsBack(p, p.iobhd, cancelled) then
           q.ci == {} && q.sact == {} && q.pending == {} && !q.waitforclear && q.ccs == 0
         else
           && q.pending == p.pending - SlotsBack(p, p.iobhd, cancelled)
           && q.ci == p.ci - SlotsBack(p, p.iobhd[..m], cancelled) && q.sact == p.sact - SlotsBack(p, p.iobhd[m..], cancelled)
  {
    var p1 := p.(started := start);
    CancelMeans(p1, p.iobhd, cancelled, queued, false);
    CancelShrinks(p1, p.iobhd, cancelled, queued, false);
    var m := FirstQueued(p.iobhd, cancelled, queued);
    SlotsBackSame(p, p1, p.iobhd, cancelled);
    SlotsBackSame(p, p1, p.iobhd[..m], cancelled);
    SlotsBackSame(p, p1, p.iobhd[m..], cancelled);
    hide Inv, CancelAll, SlotsBack, FirstQueued;
    NothingLeft(p.pending, SlotsBack(p, p.iobhd, cancelled));
  }

  lemma NothingLeft(a: set<nat>, b: set<nat>)
    ensures a <= b <==> a - b == {}
  {
    if a - b == {} {
      assert forall x <- a :: x in b || x in a - b;
    }
  }

  // ---------------------------------------------------------------------------
  // Whole runs
  // ---------------------------------------------------------------------------

  lemma RunTail(ports: seq<Port>, steps: seq<Step>)
    requires steps != [] && |ports| == |steps| + 1 && Inv(ports[0]) && Run(ports, steps)
    ensures Inv(ports[1]) && StepSeen(ports[0], steps[0], ports[1]) && Run(ports[1..], steps[1..])
  {
    NextInv(ports[0], steps[0], ports[1]);
    StepMeans(ports[0], steps[0], ports[1]);
    hide Inv, Next, StepSeen;
  }

  /** A slot that is out of `ci`, or of `sact`, stays out until the guest sets it again. */
  lemma {:induction false} StaysClear(ports: seq<Port>, steps: seq<Step>, slot: nat)
    requires |ports| == |steps| + 1 && Inv(ports[0]) && Run(ports, steps)
    ensures slot !in ports[0].ci && (forall step <- steps :: slot !in CiSet(step)) ==> slot !in ports[|steps|].ci
    ensures slot !in ports[0].sact && (forall step <- steps :: slot !in SactSet(step)) ==> slot !in ports[|steps|].sact
    decreases |steps|
  {
    hide Inv, Run, CiSet, SactSet;
    if steps != [] {
      RunTail(ports, steps);
      StaysClear(ports[1..], steps[1..], slot);
    }
  }

  /** A command that is in flight on a started port stays in flight, and its issue bit stays set, until the
      device completes it, the port is stopped or the controller is reset. */
  lemma {:induction false} StaysInFlight(ports: seq<Port>, steps: seq<Step>, a: nat)
    requires |ports| == |steps| + 1 && Inv(ports[0]) && Run(ports, steps)
    requires a in ports[0].iobhd && forall k | 0 <= k < |steps| :: ports[k].started && !Ends(steps[k], a)
    ensures
      var p, p' := ports[0], ports[|steps|];
      && a in p'.iobhd && SlotOf(p', a) == SlotOf(p, a) && SlotOf(p, a) in p'.pending
      && (SlotOf(p, a) in p.ci ==> SlotOf(p, a) in p'.ci)
    decreases |steps|
  {
    InFlight(ports[0]);
    hide Inv, Run, CiSet, SactSet, Ends, SlotOf;
    if steps != [] {
      RunTail(ports, steps);
      StaysInFlight(ports[1..], steps[1..], a);
    }
  }

  /** A command that the device has completed without an error is over: as soon as the step that completes it
      ends, and until the guest sets its bit again, it is out of `ci`, or out of `sact` if it was queued. */
  lemma CompletedIsOver(ports: seq<Port>, steps: seq<Step>)
    requires |ports| == |steps| + 1 && Inv(ports[0]) && Run(ports, steps)
    requires steps != [] && steps[0].Complete? && !steps[0].err
    requires
      var p, step := ports[0], steps[0];
      step.a in p.iobhd && step.a < |p.ioreq| && (!p.ioreq[step.a].more || (step.c.dsm && !step.c.range))
    ensures
      var p, c, slot := ports[0], steps[0].c, ports[0].ioreq[steps[0].a].slot;
      var queued := c.ncq && !p.ioreq[steps[0].a].more;
      && (!queued && (forall step <- steps :: slot !in CiSet(step)) ==> slot !in ports[|steps|].ci)
      && (queued && (forall step <- steps :: slot !in SactSet(step)) ==> slot !in ports[|steps|].sact)
  {
    var p, step := ports[0], steps[0];
    var p1 := Completed(p, step.a, false, step.c);
    CompletionMeans(p, step.a, false, step.c);
    CompletedInv(p, step.a, false, step.c);
    HandledCalm(p1, step.guest, ports[1]);
    RunTail(ports, steps);
    hide Inv, Run, Completed, Handled;
    StaysClear(ports[1..], steps[1..], p.ioreq[step.a].slot);
    assert forall x <- steps[1..] :: x in steps;
  }
}
