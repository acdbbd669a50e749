/** The command engine of an AHCI port, updated in place. */
module AhciEngine {
  import opened AhciCommand
  import opened AhciPort
  import opened AhciScan
  import opened AhciRun

  class CommandEngine {
    const atapi: bool
    var ci: set<nat>
    var pending: set<nat>
    var sact: set<nat>
    var ccs: nat
    var started: bool
    var ready: bool
    var busy: bool
    var waitforclear: bool
    var reset: bool
    var iofhd: seq<nat>
    var iobhd: seq<nat>
    var ioreq: seq<Ioreq>
    ghost var outstanding: set<nat>

    constructor (atapi: bool)
      ensures Init(View()) && Inv(View()) && this.atapi == atapi
    {
      this.atapi := atapi;
      ci, pending, sact, ccs := {}, {}, {}, 0;
      started, ready, busy, waitforclear, reset := false, false, false, false, false;
      iofhd, iobhd, ioreq := [], [], seq(IOQSZ, _ => Ioreq(0, false));
      outstanding := {};
      new;
      for i := 0 to IOQSZ
        invariant iofhd == seq(i, k => k)
        invariant ci == {} && pending == {} && iobhd == [] && outstanding == {} && ccs == 0 && !started
        invariant |ioreq| == IOQSZ
      {
        iofhd := iofhd + [i];
        assert iofhd == seq(i + 1, k => k);
      }
      InitInv(View());
    }

    ghost function View(): Port
      reads this
    {
      Port(ci, pending, sact, ccs, started, ready, busy, waitforclear, reset, iofhd, iobhd, ioreq, outstanding)
    }

    method SendFis(error: bool)
      modifies this
      ensures View() == WriteFis(old(View()), error)
    {
      if !ready {
        return;
      }
      if error {
        waitforclear := true;
      }
    }

    method SendD2h(slot: nat, error: bool)
      modifies this
      ensures View() == WriteD2h(old(View()), slot, error)
    {
      if !error {
        ci := ci - {slot};
      }
      busy := false;
      SendFis(error);
    }

    method SendD2hNcq(slot: nat)
      modifies this
      ensures View() == WriteD2hNcq(old(View()), slot)
    {
      busy := false;
      ci := ci - {slot};
      SendFis(false);
    }

    method SendSdb(slot: nat, error: bool)
      modifies this
      ensures View() == WriteSdb(old(View()), slot, error)
    {
      if !error {
        sact := sact - {slot};
      }
      SendFis(error);
    }

    method StopIfIdle()
      modifies this
      ensures View() == CheckStopped(old(View()))
    {
      if !started {
        if pending == {} {
          ccs, ci, sact, waitforclear := 0, {}, {}, false;
        }
      }
    }

    method Submit(slot: nat, more: bool)
      requires iofhd != [] && iofhd[0] < |ioreq|
      modifies this
      ensures View() == Take(old(View()), slot, more)
    {
      var a := iofhd[0];
      iofhd := iofhd[1..];
      ioreq := ioreq[a := Ioreq(slot, more)];
      pending := pending + {slot};
      iobhd := [a] + iobhd;
      outstanding := outstanding + {a};
    }

    method RunCommand(slot: nat, cmd: Command)
      requires iofhd != [] && iofhd[0] < |ioreq| && !cmd.NotH2D? && !cmd.Control?
      modifies this
      ensures View() == HandleCommand(old(View()), slot, cmd)
    {
      hide CheckStopped, WriteD2hNcq, Take;
      match cmd {
        case Immediate(error) => SendD2h(slot, error);
        case Transfer(ncq, more) => Begin(slot, ncq, more);
        case Flush => Submit(slot, false);
        case Trim(ncq, range, more) =>
          if range {
            Begin(slot, ncq, more);
          } else {
            SendD2h(slot, false);
            pending := pending - {slot};
            StopIfIdle();
          }
        case AtapiRead(empty, more) =>
          if empty {
            SendD2h(slot, false);
          }
          Submit(slot, more);
      }
    }

    method Begin(slot: nat, ncq: bool, more: bool)
      requires iofhd != [] && iofhd[0] < |ioreq|
      modifies this
      ensures View() == Issue(old(View()), slot, ncq, more)
    {
      hide Take, WriteD2hNcq;
      Submit(slot, more);
      if ncq {
        SendD2hNcq(slot);
      }
    }

    method RunSlot(slot: nat, cmd: Command)
      requires iofhd != [] && iofhd[0] < |ioreq|
      modifies this
      ensures View() == HandleSlot(old(View()), slot, cmd)
    {
      hide HandleCommand;
      match cmd {
        case NotH2D =>
        case Control(srst) =>
          if srst {
            reset := true;
          } else if reset {
            reset := false;
            sact, busy := {}, false;
          }
          ci := ci - {slot};
        case _ =>
          busy := true;
          RunCommand(slot, cmd);
      }
    }

    /** Handles the command table of a slot. */
    method HandleTable(slot: nat, t: Table)
      requires iofhd != [] && iofhd[0] < |ioreq|
      modifies this
      ensures View() == HandleSlot(old(View()), slot, CommandOf(t, atapi))
    {
      hide CommandOf;
      RunSlot(slot, CommandOf(t, atapi));
    }

    /** One turn of the scan. */
    method Turn(guest: Guest)
      requires Inv(View())
      modifies this
      ensures Inv(View()) && View() == Iterate(old(View()), guest)
    {
      IterateInv(View(), guest);
      hide Lists, Exact, HandleSlot;
      if ccs in ci - pending {
        HandleSlotInv(View(), ccs, guest[ccs]);
        RunSlot(ccs, guest[ccs]);
      }
      ccs := (ccs + 1) % SLOTS;
    }

    /** The first turns of the scan, at most `limit` of them, whatever the commands. */
    method ScanFor(guest: Guest, limit: nat) returns (ended: bool)
      requires Inv(View())
      modifies this
      ensures Inv(View()) && View() == Scan(old(View()), guest, limit) && ended == !Scanning(View())
    {
      hide Inv, Iterate;
      ghost var p0 := View();
      for n := 0 to limit
        invariant Inv(View()) && View() == Scan(p0, guest, n)
      {
        if ci - pending != {} && !busy && !waitforclear {
          ScanNext(p0, guest, n);
          Turn(guest);
        }
      }
      ended := !(ci - pending != {} && !busy && !waitforclear);
    }

    /** Looks for commands to issue, on a port whose commands settle. */
    method HandlePort(guest: Guest)
      requires Inv(View()) && (started ==> Settles(View(), guest))
      modifies this
      ensures Handled(old(View()), guest, View()) && Inv(View())
    {
      hide Inv, Settles, Iterate;
      if !started {
        return;
      }
      ghost var p0 := View();
      ghost var bound := TurnsNeeded(p0, guest);
      ghost var n: nat := 0;
      while ci - pending != {} && !busy && !waitforclear
        invariant Inv(View()) && View() == Scan(p0, guest, n) && n <= bound
        decreases bound - n
      {
        StillScanning(p0, guest, n, bound);
        ScanNext(p0, guest, n);
        Turn(guest);
        n := n + 1;
      }
    }

    /** Stops the port: requests that the block device has not begun are taken back. */
    method Stop(cancelled: set<nat>, queued: set<nat>)
      requires Inv(View())
      modifies this
      ensures Inv(View()) && View() == PortStop(old(View()), cancelled, queued)
    {
      PortStopInv(View(), cancelled, queued);
      hide Inv, Release, CheckStopped;
      var ncq, todo, i := false, iobhd, 0;
      assert todo[0..] == todo;
      while i < |todo|
        invariant i <= |todo|
        invariant CancelAll(View(), todo[i..], cancelled, queued, ncq) ==
                  CancelAll(old(View()), todo, cancelled, queued, false)
      {
        assert todo[i..][0] == todo[i] && todo[i..][1..] == todo[i + 1..];
        var a := todo[i];
        i := i + 1;
        if a !in cancelled {
          continue;
        }
        ncq := ncq || a in queued;
        TakeBack(a, ncq);
      }
      StopIfIdle();
    }

    /** Moves request `a` back to the free list. */
    method GiveBack(a: nat)
      modifies this
      ensures View() == Release(old(View()), a)
    {
      iobhd := RemoveFirst(iobhd, a);
      iofhd := iofhd + [a];
      outstanding := outstanding - {a};
    }

    method TakeBack(a: nat, ncq: bool)
      modifies this
      ensures View() == Cancel(old(View()), a, ncq)
    {
      hide Release;
      var slot := if a < |ioreq| then ioreq[a].slot else SLOTS;
      if ncq {
        sact := sact - {slot};
      } else {
        ci := ci - {slot};
      }
      pending := pending - {slot};
      GiveBack(a);
    }

    /** The completion callback of request `a`.  Returns whether the command continues. */
    method IoreqCallback(a: nat, err: bool, c: Completion, guest: Guest) returns (continues: bool)
      requires Inv(View()) && Enabled(View(), Complete(a, err, c, guest))
      requires CompletedSettles(View(), a, err, c, guest)
      modifies this
      ensures Next(old(View()), Complete(a, err, c, guest), View()) && Inv(View())
    {
      ghost var p0 := View();
      CompletedInv(p0, a, err, c);
      hide Inv, Handled, Settles;
      continues := !err && ioreq[a].more && (c.dsm ==> c.range);
      FinishRequest(a, err, c);
      if !continues {
        HandlePort(guest);
      }
    }

    method FinishRequest(a: nat, err: bool, c: Completion)
      requires a < |ioreq| && forall x <- iofhd :: x < |ioreq|
      modifies this
      ensures View() == Completed(old(View()), a, err, c)
    {
      var aior := ioreq[a];
      GiveBack(a);
      assert iofhd[0] in iofhd;
      hide Issue, Release, Reported, CheckStopped;
      if !err && aior.more && (c.dsm ==> c.range) {
        Begin(aior.slot, c.ncq && c.unmoved && !c.dsm, c.more);
        return;
      }
      Report(aior.slot, err, c.ncq && (err || !aior.more));
      pending := pending - {aior.slot};
      StopIfIdle();
    }

    method Report(slot: nat, err: bool, queued: bool)
      modifies this
      ensures View() == Reported(old(View()), slot, err, queued)
    {
      if queued {
        SendSdb(slot, err);
      } else {
        SendD2h(slot, err);
      }
    }
  }

  /** The scan after a completion settles, if there is one. */
  ghost predicate CompletedSettles(p: Port, a: nat, err: bool, c: Completion, guest: Guest)
    requires Inv(p) && a in p.iobhd
  {
    CompletedInv(p, a, err, c);
    var p1 := Completed(p, a, err, c);
    Continues(p, a, err, c) || !p1.started || Settles(p1, guest)
  }

  lemma TurnsNeeded(p: Port, guest: Guest) returns (n: nat)
    requires Inv(p) && p.started && Settles(p, guest)
    ensures !Scanning(Scan(p, guest, n))
  {
    ScanTerminatesIff(p, guest);
    n :| !Scanning(Scan(p, guest, n));
  }

  lemma {:induction false} StaysStopped(p: Port, guest: Guest, m: nat, n: nat)
    requires Inv(p) && m <= n && !Scanning(Scan(p, guest, m))
    ensures !Scanning(Scan(p, guest, n))
  {
    if m < n {
      StaysStopped(p, guest, m, n - 1);
    }
  }

  lemma StillScanning(p: Port, guest: Guest, n: nat, bound: nat)
    requires Inv(p) && Scanning(Scan(p, guest, n)) && !Scanning(Scan(p, guest, bound))
    ensures n < bound
  {
    if bound <= n {
      StaysStopped(p, guest, bound, n);
    }
  }

  lemma ScanNext(p: Port, guest: Guest, n: nat)
    requires Inv(p) && Scanning(Scan(p, guest, n))
    ensures Scan(p, guest, n + 1) == Iterate(Scan(p, guest, n), guest)
  {
  }
}
