/** The command engine of an AHCI port.

    A port has 32 command slots.  The guest sets bits of `ci`; the scan issues the commands that are
    not in flight, and the completion callbacks of the block device finish or continue them.  The bit
    masks are sets of slots.  What a guest's command tables hold is an input of every step, and so is
    the answer of the block device. */
module AhciPort {
  import BlockWorker
  import opened AhciCommand

  const SLOTS := 32

  /** Number of I/O requests of a port: the queue size of the block device. */
  const IOQSZ: nat := BlockWorker.QueueSize()

  /** What the command tables of the 32 slots ask for. */
  type Guest = g: seq<Command> | |g| == SLOTS witness seq(SLOTS, _ => Flush)

  /** The commands in a guest's 32 command tables. */
  function Commands(tables: seq<Table>, atapi: bool): (g: Guest)
    requires |tables| == SLOTS
    ensures forall slot | 0 <= slot < SLOTS :: g[slot] == CommandOf(tables[slot], atapi)
  {
    seq(SLOTS, slot requires 0 <= slot < SLOTS => CommandOf(tables[slot], atapi))
  }

  datatype Ioreq = Ioreq(slot: nat, more: bool)

  /** `ready` says that received FISes are accepted (FRE set and a receive area present), `busy` that
      the device status shows BSY or DRQ.  `outstanding` holds the I/O requests that the block device has
      accepted and whose callback has not begun. */
  datatype Port = Port(
    ci: set<nat>, pending: set<nat>, sact: set<nat>, ccs: nat,
    started: bool, ready: bool, busy: bool, waitforclear: bool, reset: bool,
    iofhd: seq<nat>, iobhd: seq<nat>, ioreq: seq<Ioreq>, outstanding: set<nat>)

  // ---------------------------------------------------------------------------
  // Reports to the guest
  // ---------------------------------------------------------------------------

  /** An error report stops the scan if the guest can receive it. */
  function WriteFis(p: Port, error: bool): Port {
    if p.ready && error then p.(waitforclear := true) else p
  }

  function WriteD2h(p: Port, slot: nat, error: bool): Port {
    WriteFis(p.(busy := false, ci := if error then p.ci else p.ci - {slot}), error)
  }

  function WriteD2hNcq(p: Port, slot: nat): Port {
    WriteFis(p.(busy := false, ci := p.ci - {slot}), false)
  }

  function WriteSdb(p: Port, slot: nat, error: bool): Port {
    WriteFis(p.(sact := if error then p.sact else p.sact - {slot}), error)
  }

  function CheckStopped(p: Port): Port {
    if !p.started && p.pending == {} then p.(ccs := 0, ci := {}, sact := {}, waitforclear := false) else p
  }

  function PortReset(p: Port): Port {
    p.(sact := {}, busy := false)
  }

  // ---------------------------------------------------------------------------
  // The request lists
  // ---------------------------------------------------------------------------

  function SlotOf(p: Port, a: nat): nat {
    if a < |p.ioreq| then p.ioreq[a].slot else SLOTS
  }

  /** The slots that busy requests carry. */
  ghost function Carried(p: Port): set<nat> {
    set a | a in p.iobhd :: SlotOf(p, a)
  }

  ghost predicate Unequal(s: seq<nat>) {
    forall i: nat, j: nat | i < j < |s| :: s[i] != s[j]
  }

  /** No two busy requests carry the same slot. */
  ghost predicate OneEach(p: Port) {
    forall a, b | a in p.iobhd && b in p.iobhd && a != b :: SlotOf(p, a) != SlotOf(p, b)
  }

  /** Every request is in one of the two lists, and once. */
  ghost predicate Lists(p: Port) {
    && |p.ioreq| == IOQSZ && |p.iofhd| + |p.iobhd| == IOQSZ && Unequal(p.iofhd) && Unequal(p.iobhd)
    && (forall a <- p.iofhd :: a < IOQSZ && a !in p.iobhd)
    && (forall a <- p.iobhd :: a < IOQSZ && SlotOf(p, a) < SLOTS)
    && OneEach(p)
    && (forall a <- p.outstanding :: a in p.iobhd)
  }

  /** A slot is pending iff exactly one busy request carries it. */
  ghost predicate Exact(p: Port) {
    && (forall slot :: slot in p.pending <==> slot in Carried(p))
  }

  ghost predicate Inv(p: Port) {
    Lists(p) && Exact(p) && p.ccs < SLOTS && (forall slot <- p.ci :: slot < SLOTS)
  }

  ghost function Below(n: nat): (s: set<nat>)
    ensures |s| == n && forall i: nat :: i in s <==> i < n
  {
    if n == 0 then {} else Below(n - 1) + {n - 1}
  }

  /** At most 32 requests are busy, since each carries its own slot. */
  lemma FewBusy(p: Port)
    requires Lists(p)
    ensures |p.iobhd| <= SLOTS
  {
    hide Unequal;
    CountSlots(p, p.iobhd);
    forall x | x in Carried(p)
      ensures x in Below(SLOTS)
    {
    }
    SubsetSize(Carried(p), Below(SLOTS));
  }

  lemma {:induction false} CountSlots(p: Port, q: seq<nat>)
    requires Unequal(q) && OneEach(p) && forall a <- q :: a in p.iobhd
    ensures |set a | a in q :: SlotOf(p, a)| == |q|
  {
    var s := set a | a in q :: SlotOf(p, a);
    if q != [] {
      CountSlots(p, q[1..]);
      var t := set a | a in q[1..] :: SlotOf(p, a);
      assert q[0] !in q[1..];
      assert s == t + {SlotOf(p, q[0])};
    }
  }

  lemma SubsetSize(a: set<nat>, b: set<nat>)
    requires a <= b
    ensures |a| <= |b|
  {
    assert b == a + (b - a);
  }

  lemma {:induction false} SetOfSeqSize(s: set<nat>, q: seq<nat>)
    requires forall x <- s :: x in q
    ensures |s| <= |q|
  {
    if q != [] {
      var x := q[0];
      forall y | y in s - {x}
        ensures y in q[1..]
      {
      }
      SetOfSeqSize(s - {x}, q[1..]);
      SubsetSize(s, (s - {x}) + {x});
    } else {
      assert s == {};
    }
  }

  /** A request is free whenever a command is issued, and the block device has room for it. */
  lemma Room(p: Port)
    requires Lists(p)
    ensures p.iofhd != [] && p.iofhd[0] < IOQSZ && |p.outstanding| <= |p.iobhd| < BlockWorker.QueueSize()
  {
    FewBusy(p);
    SetOfSeqSize(p.outstanding, p.iobhd);
    assert p.iofhd[0] in p.iofhd;
  }

  /** Pulls a request off the free list and issues it for `slot`. */
  function Take(p: Port, slot: nat, more: bool): Port
    requires p.iofhd != [] && p.iofhd[0] < |p.ioreq|
  {
    var a := p.iofhd[0];
    p.(iofhd := p.iofhd[1..], iobhd := [a] + p.iobhd, ioreq := p.ioreq[a := Ioreq(slot, more)],
       pending := p.pending + {slot}, outstanding := p.outstanding + {a})
  }

  function RemoveFirst(s: seq<nat>, x: nat): seq<nat> {
    if s == [] then [] else if s[0] == x then s[1..] else [s[0]] + RemoveFirst(s[1..], x)
  }

  /** Moves a request back to the free list. */
  function Release(p: Port, a: nat): Port {
    p.(iobhd := RemoveFirst(p.iobhd, a), iofhd := p.iofhd + [a], outstanding := p.outstanding - {a})
  }

  lemma TakeSlots(p: Port, slot: nat, more: bool)
    requires p.iofhd != [] && p.iofhd[0] < |p.ioreq| && p.iofhd[0] !in p.iobhd
    ensures var p', a := Take(p, slot, more), p.iofhd[0];
            && SlotOf(p', a) == slot && (forall x <- p.iobhd :: SlotOf(p', x) == SlotOf(p, x))
            && Carried(p') == Carried(p) + {slot}
  {
    var p', a := Take(p, slot, more), p.iofhd[0];
    assert forall x :: x in p'.iobhd <==> x == a || x in p.iobhd;
    assert SlotOf(p', a) == slot && (forall x <- p.iobhd :: SlotOf(p', x) == SlotOf(p, x));
    hide SlotOf;
  }

  lemma TakeOneEach(p: Port, slot: nat, more: bool)
    requires p.iofhd != [] && p.iofhd[0] < |p.ioreq| && p.iofhd[0] !in p.iobhd
    requires OneEach(p) && slot !in Carried(p)
    ensures OneEach(Take(p, slot, more))
  {
    hide SlotOf;
    TakeSlots(p, slot, more);
    var p', a := Take(p, slot, more), p.iofhd[0];
    assert forall x :: x in p'.iobhd <==> x == a || x in p.iobhd;
    assert forall x <- p.iobhd :: SlotOf(p, x) in Carried(p);
  }

  lemma TakeKeeps(p: Port, slot: nat, more: bool)
    requires Lists(p) && slot < SLOTS && slot !in Carried(p)
    ensures p.iofhd != [] && p.iofhd[0] < IOQSZ
    ensures Lists(Take(p, slot, more)) && Carried(Take(p, slot, more)) == Carried(p) + {slot}
  {
    hide Unequal, SlotOf, Carried, OneEach;
    Room(p);
    var a := p.iofhd[0];
    assert a in p.iofhd;
    TakeSlots(p, slot, more);
    TakeOneEach(p, slot, more);
    HeadTail(p.iofhd);
    Cons(a, p.iobhd);
  }

  lemma Cons(x: nat, s: seq<nat>)
    requires Unequal(s) && x !in s
    ensures Unequal([x] + s) && forall y :: y in [x] + s <==> y == x || y in s
  {
  }

  lemma HeadTail(s: seq<nat>)
    requires s != [] && Unequal(s)
    ensures s[0] !in s[1..] && Unequal(s[1..]) && forall x :: x in s <==> x == s[0] || x in s[1..]
  {
  }

  lemma {:induction false} RemoveFirstFacts(s: seq<nat>, x: nat)
    requires Unequal(s) && x in s
    ensures Unequal(RemoveFirst(s, x)) && |RemoveFirst(s, x)| == |s| - 1
    ensures forall y :: y in RemoveFirst(s, x) <==> y in s && y != x
  {
    HeadTail(s);
    if s[0] != x {
      RemoveFirstFacts(s[1..], x);
    }
  }

  lemma ReleaseKeeps(p: Port, a: nat)
    requires Lists(p) && a in p.iobhd
    ensures Lists(Release(p, a)) && Carried(Release(p, a)) == Carried(p) - {SlotOf(p, a)}
  {
    var p' := Release(p, a);
    RemoveFirstFacts(p.iobhd, a);
    assert a !in p.iofhd;
    assert Unequal(p'.iofhd);
    hide Unequal, RemoveFirst;
    assert forall x :: SlotOf(p', x) == SlotOf(p, x);
    hide SlotOf;
  }

  // ---------------------------------------------------------------------------
  // Issuing a command
  // ---------------------------------------------------------------------------

  /** Issues the first round of a command; a queued one is acknowledged at once. */
  function Issue(p: Port, slot: nat, ncq: bool, more: bool): Port
    requires p.iofhd != [] && p.iofhd[0] < |p.ioreq|
  {
    var p1 := Take(p, slot, more);
    if ncq then WriteD2hNcq(p1, slot) else p1
  }

  function Clear(p: Port, slot: nat): Port {
    p.(pending := p.pending - {slot})
  }

  function HandleCommand(p: Port, slot: nat, cmd: Command): Port
    requires p.iofhd != [] && p.iofhd[0] < |p.ioreq| && !cmd.NotH2D? && !cmd.Control?
  {
    match cmd
    case Immediate(error) => WriteD2h(p, slot, error)
    case Transfer(ncq, more) => Issue(p, slot, ncq, more)
    case Flush => Take(p, slot, false)
    case Trim(ncq, range, more) =>
      if range then Issue(p, slot, ncq, more) else CheckStopped(Clear(WriteD2h(p, slot, false), slot))
    case AtapiRead(empty, more) => Take(if empty then WriteD2h(p, slot, false) else p, slot, more)
  }

  function HandleSlot(p: Port, slot: nat, cmd: Command): Port
    requires p.iofhd != [] && p.iofhd[0] < |p.ioreq|
  {
    match cmd
    case NotH2D => p
    case Control(srst) =>
      var p1 := if srst then p.(reset := true) else if p.reset then PortReset(p.(reset := false)) else p;
      p1.(ci := p1.ci - {slot})
    case _ => HandleCommand(p.(busy := true), slot, cmd)
  }

  function Unissued(p: Port): set<nat> {
    p.ci - p.pending
  }

  /** The scan goes on. */
  predicate Scanning(p: Port) {
    Unissued(p) != {} && !p.busy && !p.waitforclear
  }

  /** One turn of the scan. */
  ghost function Iterate(p: Port, guest: Guest): Port
    requires Inv(p)
  {
    Room(p);
    assert p.iofhd[0] in p.iofhd;
    var q := if p.ccs in Unissued(p) then HandleSlot(p, p.ccs, guest[p.ccs]) else p;
    q.(ccs := (q.ccs + 1) % SLOTS)
  }

  /** Parts of the state that the request lists do not depend on. */
  lemma SameLists(p: Port, p': Port)
    requires Lists(p) && p'.iofhd == p.iofhd && p'.iobhd == p.iobhd && p'.ioreq == p.ioreq
    requires p'.outstanding == p.outstanding
    ensures Lists(p') && Carried(p') == Carried(p)
  {
    hide Unequal;
    assert forall a :: SlotOf(p', a) == SlotOf(p, a);
    hide SlotOf;
  }

  lemma TakeInv(p: Port, slot: nat, more: bool)
    requires Inv(p) && slot < SLOTS && slot !in p.pending
    ensures p.iofhd != [] && p.iofhd[0] < IOQSZ && Inv(Take(p, slot, more))
  {
    hide Lists, Carried;
    TakeKeeps(p, slot, more);
  }

  /** Reports and flags leave the invariant alone. */
  lemma OthersInv(p: Port, p': Port)
    requires Inv(p) && p'.iofhd == p.iofhd && p'.iobhd == p.iobhd && p'.ioreq == p.ioreq
    requires p'.outstanding == p.outstanding && p'.pending == p.pending
    requires p'.ci <= p.ci && p'.ccs < SLOTS
    ensures Inv(p')
  {
    hide Lists, Carried;
    SameLists(p, p');
  }

  lemma HandleCommandInv(p: Port, slot: nat, cmd: Command)
    requires Inv(p) && slot < SLOTS && slot !in p.pending && !cmd.NotH2D? && !cmd.Control?
    ensures p.iofhd != [] && p.iofhd[0] < IOQSZ && p.iofhd[0] < |p.ioreq|
    ensures Inv(HandleCommand(p, slot, cmd))
  {
    Room(p);
    hide Inv, Take, Issue, WriteD2h, CheckStopped, Clear;
    match cmd {
      case Immediate(error) => D2hInv(p, slot, error);
      case Transfer(ncq, more) => IssueInv(p, slot, ncq, more);
      case Flush => TakeInv(p, slot, false);
      case Trim(ncq, range, more) =>
        IssueInv(p, slot, ncq, more);
        EmptyTrimInv(p, slot);
      case AtapiRead(empty, more) =>
        D2hInv(p, slot, false);
        TakeInv(if empty then WriteD2h(p, slot, false) else p, slot, more);
    }
  }

  lemma D2hInv(p: Port, slot: nat, error: bool)
    requires Inv(p)
    ensures Inv(WriteD2h(p, slot, error)) && WriteD2h(p, slot, error).pending == p.pending
  {
    OthersInv(p, WriteD2h(p, slot, error));
  }

  lemma IssueInv(p: Port, slot: nat, ncq: bool, more: bool)
    requires Inv(p) && slot < SLOTS && slot !in p.pending
    ensures p.iofhd != [] && p.iofhd[0] < |p.ioreq| && Inv(Issue(p, slot, ncq, more))
  {
    TakeInv(p, slot, more);
    hide Lists, Exact, Take;
    OthersInv(Take(p, slot, more), Issue(p, slot, ncq, more));
  }

  lemma EmptyTrimInv(p: Port, slot: nat)
    requires Inv(p) && slot !in p.pending
    ensures Inv(CheckStopped(Clear(WriteD2h(p, slot, false), slot)))
  {
    D2hInv(p, slot, false);
    hide WriteD2h, Lists, Exact;
    var q := WriteD2h(p, slot, false);
    assert q.pending - {slot} == q.pending;
    OthersInv(q, CheckStopped(Clear(q, slot)));
  }

  lemma HandleSlotInv(p: Port, slot: nat, cmd: Command)
    requires Inv(p) && slot < SLOTS && slot !in p.pending
    ensures p.iofhd != [] && p.iofhd[0] < IOQSZ && p.iofhd[0] < |p.ioreq|
    ensures Inv(HandleSlot(p, slot, cmd))
  {
    Room(p);
    hide Inv, HandleCommand;
    match cmd {
      case NotH2D =>
      case Control(srst) => OthersInv(p, HandleSlot(p, slot, cmd));
      case _ =>
        OthersInv(p, p.(busy := true));
        HandleCommandInv(p.(busy := true), slot, cmd);
    }
  }

  lemma IterateInv(p: Port, guest: Guest)
    requires Inv(p)
    ensures Inv(Iterate(p, guest))
  {
    if p.ccs in Unissued(p) {
      HandleSlotInv(p, p.ccs, guest[p.ccs]);
      OthersInv(HandleSlot(p, p.ccs, guest[p.ccs]), Iterate(p, guest));
    } else {
      OthersInv(p, Iterate(p, guest));
    }
  }
}
