/** The SMP rendezvous of the virtual machine monitor.

    Many threads share one rendezvous slot (a function, the requested cpus and the
    cpus already done) under one mutex, and wait for its completion on one condition
    variable.  Class `Vm` holds the shared fields and runs the locked regions in place;
    `Apply` is the transition system in which any number of threads interleave those
    regions, with broadcasts and spurious wakeups.  The theorems are about every run. */
module Rendezvous {
  import opened Wrappers

  type Cpu = nat

  /** A rendezvous function together with its argument. */
  type Func = nat

  /** One thread per vcpu, and any number of threads that call with vcpuid == -1. */
  datatype Thread = Vcpu(id: Cpu) | Host(n: nat)

  /** The fields guarded by the rendezvous mutex. */
  datatype Shared = Shared(func: Option<Func>, req: set<Cpu>, done: set<Cpu>)

  /** How one locked turn of the handler loop ends. */
  datatype Exit = NothingOpen | Completed | MustWait

  datatype Turn = Turn(shared: Shared, ran: bool, exit: Exit)

  /** One turn of the handler loop, from taking the mutex to leaving it or waiting. */
  function LoopTurn(sh: Shared, active: set<Cpu>, t: Thread): Turn {
    if sh.func.None? then Turn(sh, false, NothingOpen)
    else
      var req := sh.req * active;
      var runs := t.Vcpu? && t.id in req && t.id !in sh.done;
      var done := if runs then sh.done + {t.id} else sh.done;
      if req == done then Turn(Shared(None, req, done), runs, Completed)
      else Turn(Shared(sh.func, req, done), runs, MustWait)
  }

  // ---------------------------------------------------------------------------
  // The locked regions, in place
  // ---------------------------------------------------------------------------

  class Vm {
    var rendezvousFunc: Option<Func>
    var reqCpus: set<Cpu>
    var doneCpus: set<Cpu>
    var activeCpus: set<Cpu>

    constructor ()
      ensures View() == Shared(None, {}, {}) && activeCpus == {}
    {
      rendezvousFunc, reqCpus, doneCpus, activeCpus := None, {}, {}, {};
    }

    function View(): Shared
      reads this
    {
      Shared(rendezvousFunc, reqCpus, doneCpus)
    }

    /** The body of the handler's while loop, entered with the mutex held. */
    method HandleTurn(t: Thread) returns (ran: bool, exit: Exit)
      modifies `rendezvousFunc, `reqCpus, `doneCpus
      ensures Turn(View(), ran, exit) == LoopTurn(old(View()), activeCpus, t)
    {
      ran := false;
      if rendezvousFunc.None? {
        return false, NothingOpen;
      }
      reqCpus := reqCpus * activeCpus;
      if t.Vcpu? && t.id in reqCpus && t.id !in doneCpus {
        ran := true;
        doneCpus := doneCpus + {t.id};
      }
      if reqCpus == doneCpus {
        rendezvousFunc := None;
        exit := Completed;
      } else {
        exit := MustWait;
      }
    }

    /** The locked region of a rendezvous request: opens one unless one is in progress. */
    method TryOpen(dest: set<Cpu>, f: Func) returns (isNew: bool)
      modifies `rendezvousFunc, `reqCpus, `doneCpus
      ensures isNew == old(rendezvousFunc).None?
      ensures View() == if isNew then Shared(Some(f), dest, {}) else old(View())
    {
      if rendezvousFunc.Some? {
        return false;
      }
      reqCpus := dest;
      doneCpus := {};
      rendezvousFunc := Some(f);
      isNew := true;
    }
  }

  // ---------------------------------------------------------------------------
  // The transition system
  // ---------------------------------------------------------------------------

  /** Where a thread goes when the handler returns. */
  datatype Resume = ToGuest | ToRetry(dest: set<Cpu>, f: Func) | ToCaller(epoch: nat)

  datatype Phase =
    | Outside                                // not in the rendezvous code
    | Requesting(dest: set<Cpu>, f: Func)    // about to take the mutex to open one
    | LoopHead(resume: Resume)               // about to (re)take the mutex in the handler
    | Blocked(resume: Resume)                // in the condition wait, not signalled

  /** History of one rendezvous: `settled` is what the first turn left of `dest`. */
  datatype Epoch = Epoch(caller: Thread, dest: set<Cpu>, func: Func, settled: Option<set<Cpu>>,
                         ran: multiset<(Func, Cpu)>, complete: bool)

  /** `returned` holds the epochs whose opening call has returned. */
  datatype State = State(shared: Shared, active: set<Cpu>, phase: map<Thread, Phase>,
                         epochs: seq<Epoch>, returned: set<nat>)

  datatype Step =
    | Activate(cpu: Cpu)
    | Request(t: Thread, dest: set<Cpu>, f: Func)
    | Open(t: Thread)
    | Notice(t: Thread)
    | Handle(t: Thread)
    | SpuriousWakeup(t: Thread)

  predicate Enabled(s: State, step: Step) {
    match step
    case Activate(cpu) => true
    case Request(t, _, _) => t in s.phase && s.phase[t].Outside?
    case Open(t) => t in s.phase && s.phase[t].Requesting?
    case Notice(t) => t in s.phase && s.phase[t].Outside?
    case Handle(t) => t in s.phase && s.phase[t].LoopHead?
    case SpuriousWakeup(t) => t in s.phase && s.phase[t].Blocked?
  }

  function Broadcast(phase: map<Thread, Phase>): (woken: map<Thread, Phase>)
    ensures woken.Keys == phase.Keys
    ensures forall t <- woken :: !woken[t].Blocked?
  {
    map t | t in phase :: if phase[t].Blocked? then LoopHead(phase[t].resume) else phase[t]
  }

  function AfterReturn(resume: Resume): Phase {
    if resume.ToRetry? then Requesting(resume.dest, resume.f) else Outside
  }

  /** The history entry of the open rendezvous after a turn by `t`. */
  function Record(e: Epoch, active: set<Cpu>, called: Option<Func>, t: Thread, turn: Turn): Epoch {
    var settled := if e.settled.None? then Some(e.dest * active) else e.settled;
    var ran := if turn.ran && t.Vcpu? && called.Some? then e.ran + multiset{(called.value, t.id)} else e.ran;
    e.(settled := settled, ran := ran, complete := turn.exit.Completed?)
  }

  function ApplyHandle(s: State, t: Thread): State
    requires Enabled(s, Handle(t))
  {
    var turn := LoopTurn(s.shared, s.active, t);
    var resume := s.phase[t].resume;
    var n := |s.epochs|;
    var epochs :=
      if s.shared.func.Some? && n > 0
      then s.epochs[n - 1 := Record(s.epochs[n - 1], s.active, s.shared.func, t, turn)]
      else s.epochs;
    var woken := if turn.exit.Completed? then Broadcast(s.phase) else s.phase;
    if turn.exit.MustWait?
    then s.(shared := turn.shared, epochs := epochs, phase := woken[t := Blocked(resume)])
    else s.(shared := turn.shared, epochs := epochs, phase := woken[t := AfterReturn(resume)],
            returned := if resume.ToCaller? then s.returned + {resume.epoch} else s.returned)
  }

  function Apply(s: State, step: Step): State
    requires Enabled(s, step)
  {
    match step
    case Activate(cpu) =>
      s.(active := s.active + {cpu},
         phase := if Vcpu(cpu) in s.phase then s.phase else s.phase[Vcpu(cpu) := Outside])
    case Request(t, dest, f) =>
      s.(phase := s.phase[t := Requesting(dest, f)])
    case Open(t) =>
      var p := s.phase[t];
      if s.shared.func.Some? then s.(phase := s.phase[t := LoopHead(ToRetry(p.dest, p.f))])
      else s.(shared := Shared(Some(p.f), p.dest, {}),
              epochs := s.epochs + [Epoch(t, p.dest, p.f, None, multiset{}, false)],
              phase := s.phase[t := LoopHead(ToCaller(|s.epochs|))])
    case Notice(t) =>
      s.(phase := s.phase[t := LoopHead(ToGuest)])
    case Handle(t) =>
      ApplyHandle(s, t)
    case SpuriousWakeup(t) =>
      s.(phase := s.phase[t := LoopHead(s.phase[t].resume)])
  }

  predicate Init(s: State) {
    && s.shared == Shared(None, {}, {})
    && s.epochs == [] && s.returned == {}
    && (forall t <- s.phase :: s.phase[t].Outside?)
    && (forall cpu <- s.active :: Vcpu(cpu) in s.phase)
  }

  /** `steps` leads from `s` to `s'`. */
  predicate Run(s: State, steps: seq<Step>, s': State)
    decreases |steps|
  {
    if steps == [] then s == s'
    else Enabled(s, steps[0]) && Run(Apply(s, steps[0]), steps[1..], s')
  }

  // ---------------------------------------------------------------------------
  // What is promised
  // ---------------------------------------------------------------------------

  /** Only the newest rendezvous can be incomplete, and only while the slot is occupied. */
  ghost predicate AtMostOneOpen(s: State) {
    && (forall i | 0 <= i < |s.epochs| - 1 :: s.epochs[i].complete)
    && (s.shared.func.None? ==> forall i | 0 <= i < |s.epochs| :: s.epochs[i].complete)
  }

  /** Every cpu that has run the function of this rendezvous, with the function it ran. */
  function OnceEach(f: Func, cpus: set<Cpu>): multiset<(Func, Cpu)> {
    multiset(set c | c in cpus :: (f, c))
  }

  lemma OnceEachAdd(f: Func, cpus: set<Cpu>, cpu: Cpu)
    requires cpu !in cpus
    ensures OnceEach(f, cpus) + multiset{(f, cpu)} == OnceEach(f, cpus + {cpu})
  {
    var a := set c | c in cpus :: (f, c);
    var b := set c | c in cpus + {cpu} :: (f, c);
    assert b == a + {(f, cpu)};
  }

  /** A completed rendezvous has run its function exactly once on each target left after
      intersecting with the active set, and on no other cpu. */
  ghost predicate ExactlyOnce(s: State) {
    forall i | 0 <= i < |s.epochs| && s.epochs[i].complete ::
      var e := s.epochs[i];
      && e.settled.Some? && e.settled.value <= e.dest && e.settled.value <= s.active
      && e.ran == OnceEach(e.func, e.settled.value)
  }

  ghost predicate ReturnsAfterCompletion(s: State) {
    forall e <- s.returned :: e < |s.epochs| && s.epochs[e].complete
  }

  predicate Waiting(s: State, t: Thread) {
    t in s.phase && s.phase[t].Blocked?
  }

  /** A blocked thread is waiting for an active target that is not blocked itself. */
  ghost predicate NoLostCompletion(s: State) {
    forall t | Waiting(s, t) ::
      && s.shared.func.Some?
      && exists cpu :: && cpu in s.shared.req && cpu in s.active && cpu !in s.shared.done
                       && Vcpu(cpu) in s.phase && !Waiting(s, Vcpu(cpu))
  }

  // ---------------------------------------------------------------------------
  // The inductive invariant
  // ---------------------------------------------------------------------------

  ghost predicate OpenInv(s: State)
    requires s.shared.func.Some?
  {
    && |s.epochs| > 0
    && var e := s.epochs[|s.epochs| - 1];
    && !e.complete && e.func == s.shared.func.value
    && e.ran == OnceEach(e.func, s.shared.done)
    && match e.settled
       case None =>
         && s.shared.req == e.dest && s.shared.done == {}
         && (forall t <- s.phase :: !Waiting(s, t))
         && (exists t <- s.phase :: s.phase[t] == LoopHead(ToCaller(|s.epochs| - 1)))
       case Some(targets) =>
         && s.shared.req == targets && targets <= e.dest && targets <= s.active
         && s.shared.done <= targets && s.shared.done != targets
  }

  ghost predicate PhasesInv(s: State) {
    && (forall cpu <- s.active :: Vcpu(cpu) in s.phase)
    && (forall t | Waiting(s, t) ::
          && s.shared.func.Some?
          && (t.Vcpu? && t.id in s.shared.req ==> t.id in s.shared.done))
    && (forall t <- s.phase ::
          (s.phase[t].LoopHead? || s.phase[t].Blocked?) && s.phase[t].resume.ToCaller? ==>
            s.phase[t].resume.epoch < |s.epochs|)
  }

  ghost predicate Inv(s: State) {
    && AtMostOneOpen(s)
    && ExactlyOnce(s)
    && ReturnsAfterCompletion(s)
    && PhasesInv(s)
    && (s.shared.func.Some? ==> OpenInv(s))
  }

  lemma InitInv(s: State)
    requires Init(s)
    ensures Inv(s)
  {
  }

  lemma OpenPreserves(s: State, t: Thread)
    requires Inv(s) && Enabled(s, Open(t))
    ensures Inv(Apply(s, Open(t)))
  {
    var s' := Apply(s, Open(t));
    assert forall u | Waiting(s', u) :: Waiting(s, u);
    if s.shared.func.None? {
      var n := |s.epochs|;
      assert s'.epochs[n] == Epoch(t, s.phase[t].dest, s.phase[t].f, None, multiset{}, false);
      assert s'.phase[t] == LoopHead(ToCaller(n));
      assert OnceEach(s.phase[t].f, {}) == multiset{};
      assert OpenInv(s');
    } else {
      var e := s.epochs[|s.epochs| - 1];
      if e.settled.None? {
        var u :| u in s.phase && s.phase[u] == LoopHead(ToCaller(|s.epochs| - 1));
        assert u in s'.phase && s'.phase[u] == s.phase[u];
      }
      assert OpenInv(s');
    }
  }

  /** The open epoch's own part of a turn: targets stay put, runs match `done`. */
  lemma TurnOnOpenEpoch(s: State, t: Thread)
    requires Inv(s) && s.shared.func.Some?
    ensures
      var turn := LoopTurn(s.shared, s.active, t);
      var e := s.epochs[|s.epochs| - 1];
      var e' := Record(e, s.active, s.shared.func, t, turn);
      && e'.settled == Some(turn.shared.req)
      && turn.shared.req <= e.dest && turn.shared.req <= s.active
      && (e.settled.Some? ==> turn.shared.req == s.shared.req)
      && s.shared.done <= turn.shared.done <= turn.shared.req
      && e'.ran == OnceEach(e.func, turn.shared.done)
      && e'.func == e.func && e'.dest == e.dest
      && e'.complete == turn.exit.Completed?
      && (turn.exit.Completed? <==> turn.shared.done == turn.shared.req)
      && (t.Vcpu? && t.id in turn.shared.req ==> t.id in turn.shared.done)
  {
    var turn := LoopTurn(s.shared, s.active, t);
    var e := s.epochs[|s.epochs| - 1];
    assert e.settled.Some? ==> turn.shared.req == s.shared.req;
    assert e.settled.None? ==> turn.shared.req == e.dest * s.active;
    if turn.ran {
      OnceEachAdd(e.func, s.shared.done, t.id);
    }
  }

  /** What a turn on an open rendezvous does to the shared state and the history. */
  lemma HandleOutcome(s: State, t: Thread)
    requires Inv(s) && s.shared.func.Some? && Enabled(s, Handle(t))
    ensures
      var s' := ApplyHandle(s, t);
      var turn := LoopTurn(s.shared, s.active, t);
      var n := |s.epochs|;
      && s'.shared == turn.shared && s'.active == s.active && |s'.epochs| == n
      && s'.epochs[n - 1] == Record(s.epochs[n - 1], s.active, s.shared.func, t, turn)
      && (forall i | 0 <= i < n - 1 :: s'.epochs[i] == s.epochs[i])
      && AtMostOneOpen(s') && ExactlyOnce(s')
  {
    TurnOnOpenEpoch(s, t);
  }

  lemma HandleReturns(s: State, t: Thread)
    requires Inv(s) && s.shared.func.Some? && Enabled(s, Handle(t))
    ensures ReturnsAfterCompletion(ApplyHandle(s, t))
  {
    HandleOutcome(s, t);
    TurnOnOpenEpoch(s, t);
    var s' := ApplyHandle(s, t);
    forall e | e in s'.returned
      ensures e < |s'.epochs| && s'.epochs[e].complete
    {
      if e !in s.returned {
        assert e == s.phase[t].resume.epoch && s'.shared.func.None?;
      } else {
        assert e != |s.epochs| - 1;
      }
    }
  }

  lemma HandlePhases(s: State, t: Thread)
    requires Inv(s) && s.shared.func.Some? && Enabled(s, Handle(t))
    ensures PhasesInv(ApplyHandle(s, t))
  {
    hide ExactlyOnce, ReturnsAfterCompletion, Record, OnceEach;
    HandleOutcome(s, t);
    TurnOnOpenEpoch(s, t);
    var s' := ApplyHandle(s, t);
    forall u | Waiting(s', u)
      ensures s'.shared.func.Some? && (u.Vcpu? && u.id in s'.shared.req ==> u.id in s'.shared.done)
    {
      if u != t {
        assert Waiting(s, u);
      }
    }
  }

  lemma HandleOpen(s: State, t: Thread)
    requires Inv(s) && s.shared.func.Some? && Enabled(s, Handle(t))
    requires ApplyHandle(s, t).shared.func.Some?
    ensures OpenInv(ApplyHandle(s, t))
  {
    HandleOutcome(s, t);
    TurnOnOpenEpoch(s, t);
  }

  lemma HandlePreserves(s: State, t: Thread)
    requires Inv(s) && Enabled(s, Handle(t))
    ensures Inv(ApplyHandle(s, t))
  {
    var s' := ApplyHandle(s, t);
    if s.shared.func.None? {
      assert forall u | Waiting(s', u) :: Waiting(s, u);
    } else {
      HandleOutcome(s, t);
      HandleReturns(s, t);
      HandlePhases(s, t);
      if s'.shared.func.Some? {
        HandleOpen(s, t);
      }
    }
  }

  lemma StepPreserves(s: State, step: Step)
    requires Inv(s) && Enabled(s, step)
    ensures Inv(Apply(s, step))
  {
    match step
    case Open(t) => OpenPreserves(s, t);
    case Handle(t) => HandlePreserves(s, t);
    case Activate(cpu) => SmallStepPreserves(s, step);
    case Request(t, dest, f) => SmallStepPreserves(s, step);
    case Notice(t) => SmallStepPreserves(s, step);
    case SpuriousWakeup(t) => SmallStepPreserves(s, step);
  }

  lemma SmallStepPreserves(s: State, step: Step)
    requires Inv(s) && Enabled(s, step) && !step.Open? && !step.Handle?
    ensures Inv(Apply(s, step))
  {
    hide OnceEach, LoopTurn, Record;
    var s' := Apply(s, step);
    assert s'.epochs == s.epochs && s'.shared == s.shared && s'.returned == s.returned;
    assert forall u | Waiting(s', u) :: Waiting(s, u);
    if s.shared.func.Some? {
      if s.epochs[|s.epochs| - 1].settled.None? {
        var u :| u in s.phase && s.phase[u] == LoopHead(ToCaller(|s.epochs| - 1));
        assert u in s'.phase && s'.phase[u] == s.phase[u];
      }
      assert OpenInv(s');
    }
  }

  lemma {:induction false} RunPreserves(s: State, steps: seq<Step>, s': State)
    requires Inv(s) && Run(s, steps, s')
    ensures Inv(s')
    decreases |steps|
  {
    if steps != [] {
      StepPreserves(s, steps[0]);
      RunPreserves(Apply(s, steps[0]), steps[1..], s');
    }
  }

  /** While the targets of an open rendezvous are settled, one of them still has to run. */
  lemma PendingTarget(s: State) returns (cpu: Cpu)
    requires Inv(s) && s.shared.func.Some? && s.epochs[|s.epochs| - 1].settled.Some?
    ensures cpu in s.shared.req && cpu in s.active && cpu !in s.shared.done
    ensures Vcpu(cpu) in s.phase && !Waiting(s, Vcpu(cpu))
  {
    assert !(s.shared.req <= s.shared.done);
    cpu :| cpu in s.shared.req && cpu !in s.shared.done;
  }

  // ---------------------------------------------------------------------------
  // Main theorems
  // ---------------------------------------------------------------------------

  /** In every interleaving at most one rendezvous is open, done stays within requested once
      the targets are settled, every target runs the function exactly once, and an opening
      call returns only after its rendezvous has completed. */
  lemma Safety(init: State, steps: seq<Step>, s: State)
    requires Init(init) && Run(init, steps, s)
    ensures AtMostOneOpen(s) && ExactlyOnce(s) && ReturnsAfterCompletion(s)
    ensures s.shared.func.Some? ==> s.shared.done <= s.shared.req
  {
    InitInv(init);
    RunPreserves(init, steps, s);
  }

  lemma NoWaiterIsForgotten(init: State, steps: seq<Step>, s: State)
    requires Init(init) && Run(init, steps, s)
    ensures NoLostCompletion(s)
  {
    InitInv(init);
    RunPreserves(init, steps, s);
    forall t | Waiting(s, t)
      ensures exists cpu :: && cpu in s.shared.req && cpu in s.active && cpu !in s.shared.done
                            && Vcpu(cpu) in s.phase && !Waiting(s, Vcpu(cpu))
    {
      var cpu := PendingTarget(s);
    }
  }

  lemma StepKeepsHistory(s: State, step: Step)
    requires Inv(s) && Enabled(s, step)
    ensures
      var s' := Apply(s, step);
      && |s.epochs| <= |s'.epochs| && s.returned <= s'.returned && s.active <= s'.active
      && forall i | 0 <= i < |s.epochs| && s.epochs[i].complete :: s'.epochs[i] == s.epochs[i]
  {
    var s' := Apply(s, step);
    var n := |s.epochs|;
    if step.Handle? && s.shared.func.Some? {
      assert !s.epochs[n - 1].complete;
    }
  }

  /** What has completed never changes again, and epochs are only appended. */
  lemma {:induction false} HistoryIsStable(s: State, steps: seq<Step>, s': State)
    requires Inv(s) && Run(s, steps, s')
    ensures |s.epochs| <= |s'.epochs| && s.returned <= s'.returned && s.active <= s'.active
    ensures forall i | 0 <= i < |s.epochs| && s.epochs[i].complete :: s'.epochs[i] == s.epochs[i]
    decreases |steps|
  {
    if steps != [] {
      var s1 := Apply(s, steps[0]);
      StepPreserves(s, steps[0]);
      StepKeepsHistory(s, steps[0]);
      HistoryIsStable(s1, steps[1..], s');
    }
  }

  lemma {:induction false} RunConcat(a: State, p: seq<Step>, b: State, q: seq<Step>, c: State)
    requires Run(a, p, b) && Run(b, q, c)
    ensures Run(a, p + q, c)
    decreases |p|
  {
    if p == [] {
      assert p + q == q;
    } else {
      RunConcat(Apply(a, p[0]), p[1..], b, q, c);
      assert (p + q)[1..] == p[1..] + q;
    }
  }

  /** Steps that only let threads inside the machine move on: no new work, no spurious wakeup. */
  predicate OnlyProgress(steps: seq<Step>) {
    forall i | 0 <= i < |steps| :: steps[i].Open? || steps[i].Notice? || steps[i].Handle?
  }

  /** From anywhere outside the wait, a thread can come to the loop head without touching the
      open rendezvous. */
  lemma ReachLoopHead(s: State, t: Thread) returns (steps: seq<Step>, s': State)
    requires Inv(s) && s.shared.func.Some? && t in s.phase && !Waiting(s, t)
    ensures Run(s, steps, s') && OnlyProgress(steps) && Inv(s')
    ensures s'.shared == s.shared && s'.epochs == s.epochs && s'.active == s.active
    ensures t in s'.phase && s'.phase[t].LoopHead?
    ensures Distance(s') == Distance(s)
  {
    if s.phase[t].LoopHead? {
      return [], s;
    }
    var step := if s.phase[t].Outside? then Notice(t) else Open(t);
    StepPreserves(s, step);
    steps, s' := [step], Apply(s, step);
    assert Run(s', [], s') && steps[1..] == [];
  }

  /** How far the open rendezvous is from completion. */
  ghost function Distance(s: State): nat
    requires Inv(s) && s.shared.func.Some?
  {
    2 * |s.active - s.shared.done| + if s.epochs[|s.epochs| - 1].settled.None? then 1 else 0
  }

  /** The first turn, and every turn of a target that has not run, gets closer. */
  lemma HandleAdvances(s: State, t: Thread)
    requires Inv(s) && s.shared.func.Some? && Enabled(s, Handle(t))
    requires s.epochs[|s.epochs| - 1].settled.None? ||
             (t.Vcpu? && t.id in s.shared.req && t.id !in s.shared.done)
    requires Inv(ApplyHandle(s, t)) && ApplyHandle(s, t).shared.func.Some?
    ensures Distance(ApplyHandle(s, t)) < Distance(s)
  {
    HandleOutcome(s, t);
    TurnOnOpenEpoch(s, t);
    var s' := ApplyHandle(s, t);
    var left, left' := s.active - s.shared.done, s'.active - s'.shared.done;
    assert left' <= left;
    if s.epochs[|s.epochs| - 1].settled.Some? {
      assert t.id in left && t.id !in left';
    }
    if left' != left {
      SubsetIsSmaller(left', left);
    }
  }

  lemma PickAdvancing(s: State) returns (t: Thread)
    requires Inv(s) && s.shared.func.Some?
    ensures t in s.phase && !Waiting(s, t)
    ensures s.epochs != []
    ensures s.epochs[|s.epochs| - 1].settled.None? ||
            (t.Vcpu? && t.id in s.shared.req && t.id !in s.shared.done)
  {
    if s.epochs[|s.epochs| - 1].settled.None? {
      t :| t in s.phase && s.phase[t] == LoopHead(ToCaller(|s.epochs| - 1));
    } else {
      var cpu := PendingTarget(s);
      t := Vcpu(cpu);
    }
  }

  /** While a rendezvous is open, some thread can bring it closer to completion. */
  lemma CanAdvance(s: State) returns (steps: seq<Step>, s': State)
    requires Inv(s) && s.shared.func.Some?
    ensures Run(s, steps, s') && OnlyProgress(steps) && Inv(s')
    ensures |s'.epochs| == |s.epochs|
    ensures s'.shared.func.Some? ==> Distance(s') < Distance(s)
  {
    hide Inv, Waiting, Distance, Run;
    var t := PickAdvancing(s);
    var p, s1 := ReachLoopHead(s, t);
    s' := AdvancingTurn(s1, t);
    RunConcat(s, p, s1, [Handle(t)], s');
    steps := p + [Handle(t)];
  }

  lemma AdvancingTurn(s: State, t: Thread) returns (s': State)
    requires Inv(s) && s.shared.func.Some? && t in s.phase && s.phase[t].LoopHead?
    requires s.epochs[|s.epochs| - 1].settled.None? ||
             (t.Vcpu? && t.id in s.shared.req && t.id !in s.shared.done)
    ensures Run(s, [Handle(t)], s') && Inv(s') && |s'.epochs| == |s.epochs|
    ensures s'.shared.func.Some? ==> Distance(s') < Distance(s)
  {
    s' := ApplyHandle(s, t);
    HandlePreserves(s, t);
    if s'.shared.func.Some? {
      HandleAdvances(s, t);
    }
    hide Inv, Distance;
    assert [Handle(t)][1..] == [];
    assert Run(s', [], s');
  }

  /** No reachable deadlock: from every reachable state with an open rendezvous, some schedule of
      the threads already there completes exactly that rendezvous and leaves nobody waiting. */
  lemma {:induction false} CanAlwaysComplete(s: State) returns (steps: seq<Step>, s': State)
    requires Inv(s) && s.shared.func.Some?
    ensures Run(s, steps, s') && OnlyProgress(steps) && Inv(s')
    ensures s'.shared.func.None? && |s'.epochs| == |s.epochs| && s'.epochs[|s.epochs| - 1].complete
    ensures forall t <- s'.phase :: !Waiting(s', t)
    decreases Distance(s)
  {
    steps, s' := CanAdvance(s);
    if s'.shared.func.Some? {
      var s1 := s';
      var q;
      q, s' := CanAlwaysComplete(s1);
      RunConcat(s, steps, s1, q, s');
      steps := steps + q;
    }
  }

  lemma SubsetIsSmaller<T>(a: set<T>, b: set<T>)
    requires a < b
    ensures |a| < |b|
  {
    var x :| x in b && x !in a;
    assert b == a + (b - a) && x in b - a;
  }
}
