/** The scan of an AHCI port for commands to issue: what its turns do, and exactly when it ends. */
module AhciScan {
  import opened AhciCommand
  import opened AhciPort

  /** The port after at most `n` turns of the scan. */
  ghost function Scan(p: Port, guest: Guest, n: nat): (q: Port)
    requires Inv(p)
    ensures Inv(q)
  {
    if n == 0 then p
    else
      var q := Scan(p, guest, n - 1);
      IterateInv(q, guest);
      if Scanning(q) then Iterate(q, guest) else q
  }

  ghost predicate Terminates(p: Port, guest: Guest)
    requires Inv(p)
  {
    exists n: nat :: !Scanning(Scan(p, guest, n))
  }

  /** Handling such a command changes nothing: its slot stays unissued. */
  predicate Stuck(p: Port, cmd: Command) {
    cmd.NotH2D? || (cmd.Immediate? && cmd.error && !p.ready)
  }

  /** Handling such a command stops the scan: the device is busy with it, or reports an error. */
  predicate Stops(p: Port, cmd: Command) {
    match cmd
    case Immediate(error) => error && p.ready
    case Transfer(ncq, _) => !ncq
    case Flush => true
    case Trim(ncq, range, _) => range && !ncq
    case AtapiRead(empty, _) => !empty
    case _ => false
  }

  /** What a guest has to provide for the scan to end. */
  ghost predicate Settles(p: Port, guest: Guest)
    requires Inv(p)
  {
    || !Scanning(p)
    || (exists slot <- Unissued(p) :: Stops(p, guest[slot]))
    || (forall slot <- Unissued(p) :: !Stuck(p, guest[slot]))
  }

  /** What handling a command does to the slots that wait to be issued. */
  ghost predicate Effect(p: Port, slot: nat, cmd: Command, q: Port) {
    && q.ready == p.ready && q.started == p.started && q.ccs == p.ccs
    && if Stuck(p, cmd) then Unissued(q) == Unissued(p) && !q.busy && !q.waitforclear
       else if Stops(p, cmd) then q.busy || q.waitforclear
       else Unissued(q) == Unissued(p) - {slot} && !q.busy && !q.waitforclear
  }

  lemma CommandEffect(p: Port, slot: nat, cmd: Command)
    requires p.iofhd != [] && p.iofhd[0] < |p.ioreq| && !cmd.NotH2D? && !cmd.Control?
    requires p.busy && !p.waitforclear && p.started && slot in Unissued(p)
    ensures Effect(p, slot, cmd, HandleCommand(p, slot, cmd))
  {
    var q := HandleCommand(p, slot, cmd);
    assert !Stuck(p, cmd) && !Stops(p, cmd) ==> Unissued(q) == Unissued(p) - {slot};
  }

  /** What one turn does to the slots that wait to be issued. */
  lemma IterateUnissued(p: Port, guest: Guest)
    requires Inv(p) && Scanning(p) && p.started
    ensures p.iofhd != [] && p.iofhd[0] < |p.ioreq|
    ensures
      var q := Iterate(p, guest);
      && q.ccs == (p.ccs + 1) % SLOTS && q.ready == p.ready && q.started
      && if p.ccs !in Unissued(p) || Stuck(p, guest[p.ccs]) then Unissued(q) == Unissued(p) && Scanning(q)
         else if Stops(p, guest[p.ccs]) then !Scanning(q)
         else Unissued(q) == Unissued(p) - {p.ccs} && !q.busy && !q.waitforclear
  {
    Room(p);
    hide Inv, HandleCommand;
    var slot := p.ccs;
    if slot in Unissued(p) {
      var cmd, b := guest[slot], p.(busy := true);
      if !cmd.NotH2D? && !cmd.Control? {
        CommandEffect(b, slot, cmd);
        hide Unissued;
        assert Unissued(b) == Unissued(p) by { SameUnissued(p, b); }
        SameUnissued(HandleSlot(p, slot, cmd), Iterate(p, guest));
      } else if cmd.Control? {
        assert Unissued(Iterate(p, guest)) == Unissued(p) - {slot};
      }
    }
  }

  lemma SameUnissued(p: Port, q: Port)
    requires p.ci == q.ci && p.pending == q.pending
    ensures Unissued(p) == Unissued(q)
  {
  }

  lemma {:induction false} ScanAgain(p: Port, guest: Guest, n: nat)
    requires Inv(p) && Scanning(p) && Inv(Iterate(p, guest))
    ensures Scan(p, guest, n + 1) == Scan(Iterate(p, guest), guest, n)
  {
    if n > 0 {
      ScanAgain(p, guest, n - 1);
    } else {
      assert Scan(p, guest, 0) == p;
    }
  }

  lemma StopsNow(p: Port, guest: Guest)
    requires Inv(p) && !Scanning(p)
    ensures Terminates(p, guest)
  {
    assert !Scanning(Scan(p, guest, 0));
  }

  lemma EndsLater(p: Port, guest: Guest)
    requires Inv(p) && Scanning(p) && Inv(Iterate(p, guest)) && Terminates(Iterate(p, guest), guest)
    ensures Terminates(p, guest)
  {
    var n: nat :| !Scanning(Scan(Iterate(p, guest), guest, n));
    ScanAgain(p, guest, n);
  }

  function Distance(from: nat, to: nat): nat
    requires from < SLOTS && to < SLOTS
  {
    if from <= to then to - from else to + SLOTS - from
  }

  /** The scan comes round to a command that stops it. */
  lemma {:induction false} ReachesStop(p: Port, guest: Guest, slot: nat)
    requires Inv(p) && p.started && slot in Unissued(p) && Stops(p, guest[slot])
    ensures Terminates(p, guest)
    decreases Distance(p.ccs, slot)
  {
    if !Scanning(p) {
      StopsNow(p, guest);
    } else {
      IterateInv(p, guest);
      IterateUnissued(p, guest);
      var q := Iterate(p, guest);
      if !Scanning(q) {
        StopsNow(q, guest);
      } else {
        ReachesStop(q, guest, slot);
      }
      EndsLater(p, guest);
    }
  }

  /** Without a command that changes nothing, every unissued slot is issued in the end: `slot` is the
      next one to wait for. */
  lemma {:induction false} IssuesAll(p: Port, guest: Guest, slot: nat)
    requires Inv(p) && p.started && (slot in Unissued(p) || Unissued(p) == {}) && slot < SLOTS
    requires forall s <- Unissued(p) :: !Stuck(p, guest[s])
    ensures Terminates(p, guest)
    decreases |Unissued(p)|, Distance(p.ccs, slot)
  {
    hide Inv, Iterate, Terminates, Unissued;
    if !Scanning(p) {
      StopsNow(p, guest);
    } else {
      var q := IssuingTurn(p, guest, slot);
      if !Scanning(q) {
        StopsNow(q, guest);
      } else if |Unissued(q)| < |Unissued(p)| {
        var next :| next in Unissued(q);
        UnissuedBelow(q, next);
        IssuesAll(q, guest, next);
      } else {
        IssuesAll(q, guest, slot);
      }
      EndsLater(p, guest);
    }
  }

  /** One turn of such a scan stops it, issues a slot or comes closer to `slot`. */
  lemma IssuingTurn(p: Port, guest: Guest, slot: nat) returns (q: Port)
    requires Inv(p) && p.started && Scanning(p) && slot in Unissued(p)
    requires forall s <- Unissued(p) :: !Stuck(p, guest[s])
    ensures Inv(q) && q == Iterate(p, guest) && q.started && q.ready == p.ready
    ensures Scanning(q) ==> Unissued(q) <= Unissued(p)
    ensures Scanning(q) && |Unissued(q)| >= |Unissued(p)| ==>
              slot in Unissued(q) && |Unissued(q)| == |Unissued(p)| && Distance(q.ccs, slot) < Distance(p.ccs, slot)
    ensures Scanning(q) ==> forall s <- Unissued(q) :: !Stuck(q, guest[s])
  {
    hide Lists, Exact, Carried, Iterate, Unissued, Distance, Stops;
    UnissuedBelow(p, slot);
    IterateInv(p, guest);
    IterateUnissued(p, guest);
    q := Iterate(p, guest);
    if p.ccs in Unissued(p) {
      OneLess(Unissued(p), p.ccs);
    } else {
      Closer(p.ccs, slot);
    }
  }

  lemma OneLess(s: set<nat>, x: nat)
    requires x in s
    ensures |s - {x}| == |s| - 1
  {
  }

  lemma Closer(from: nat, to: nat)
    requires from < SLOTS && to < SLOTS && from != to
    ensures Distance((from + 1) % SLOTS, to) < Distance(from, to)
  {
  }

  lemma UnissuedBelow(p: Port, slot: nat)
    requires Inv(p) && slot in Unissued(p)
    ensures slot < SLOTS && p.ccs < SLOTS
  {
    hide Lists, Exact;
  }

  /** With a command that changes nothing and none that stops, the scan never ends. */
  lemma {:induction false} NeverEnds(p: Port, guest: Guest, slot: nat, n: nat)
    requires Inv(p) && p.started && Scanning(p) && slot in Unissued(p) && Stuck(p, guest[slot])
    requires forall s <- Unissued(p) :: !Stops(p, guest[s])
    ensures var q := Scan(p, guest, n);
            Scanning(q) && slot in Unissued(q) && Unissued(q) <= Unissued(p) && q.ready == p.ready && q.started
  {
    hide Lists, Exact;
    if n > 0 {
      NeverEnds(p, guest, slot, n - 1);
      IterateUnissued(Scan(p, guest, n - 1), guest);
    }
  }

  /** The scan of a started port ends exactly if the guest's commands settle it. */
  lemma ScanTerminatesIff(p: Port, guest: Guest)
    requires Inv(p) && p.started
    ensures Terminates(p, guest) <==> Settles(p, guest)
  {
    if !Scanning(p) {
      StopsNow(p, guest);
    } else if slot :| slot in Unissued(p) && Stops(p, guest[slot]) {
      ReachesStop(p, guest, slot);
    } else if slot :| slot in Unissued(p) && Stuck(p, guest[slot]) {
      forall n: nat
        ensures Scanning(Scan(p, guest, n))
      {
        NeverEnds(p, guest, slot, n);
      }
    } else {
      var slot :| slot in Unissued(p);
      IssuesAll(p, guest, slot);
    }
  }

  /** FIS receive enabled and a host-to-device FIS at the start of every issued command table are
      enough. */
  lemma ReadyPortTerminates(p: Port, tables: seq<Table>, atapi: bool)
    requires |tables| == SLOTS && Inv(p) && p.started && p.ready
    requires forall slot <- Unissued(p) :: tables[slot].cfis[0] == 0x27
    ensures Terminates(p, Commands(tables, atapi))
  {
    forall slot | slot in Unissued(p)
      ensures !Commands(tables, atapi)[slot].NotH2D?
    {
      UnhandledIff(tables[slot], atapi);
    }
    ScanTerminatesIff(p, Commands(tables, atapi));
  }

  /** A started, idle port with one issued slot whose table holds no host-to-device FIS: the scan never
      ends. */
  lemma StuckPort(p: Port, tables: seq<Table>, atapi: bool)
    requires |tables| == SLOTS && Inv(p) && p.started && !p.busy && !p.waitforclear
    requires p.ci == {0} && p.pending == {} && tables[0].cfis[0] == 0x34
    ensures !Terminates(p, Commands(tables, atapi))
  {
    UnhandledIff(tables[0], atapi);
    assert Unissued(p) == {0};
    ScanTerminatesIff(p, Commands(tables, atapi));
  }

  /** What looking for new commands leaves behind, if it comes to an end. */
  ghost predicate Handled(p: Port, guest: Guest, p': Port)
    requires Inv(p)
  {
    if p.started then exists n: nat :: p' == Scan(p, guest, n) && !Scanning(p') else p' == p
  }
}
