/** The requests of the SMP rendezvous: a thread that finds another rendezvous open waits for its end and
    tries again, so that no request is forgotten and every one can be served. */
module RendezvousRequests {
  import opened Wrappers
  import opened Rendezvous

  /** A request for a rendezvous. */
  datatype Ask = Ask(dest: set<Cpu>, f: Func)

  /** What thread `t` has requested, in order. */
  function Asked(steps: seq<Step>, t: Thread): seq<Ask> {
    if steps == [] then []
    else AskedBy(steps[0], t) + Asked(steps[1..], t)
  }

  function AskedBy(step: Step, t: Thread): seq<Ask> {
    if step.Request? && step.t == t then [Ask(step.dest, step.f)] else []
  }

  /** What thread `t` has opened, in order. */
  function Opened(epochs: seq<Epoch>, t: Thread): seq<Ask> {
    if epochs == [] then []
    else
      var e := epochs[|epochs| - 1];
      Opened(epochs[..|epochs| - 1], t) + if e.caller == t then [Ask(e.dest, e.func)] else []
  }

  /** What thread `t` still has to open: it is about to try, or waits for another rendezvous to end. */
  function Unmet(s: State, t: Thread): seq<Ask> {
    if t !in s.phase then []
    else match s.phase[t]
      case Requesting(dest, f) => [Ask(dest, f)]
      case LoopHead(ToRetry(dest, f)) => [Ask(dest, f)]
      case Blocked(ToRetry(dest, f)) => [Ask(dest, f)]
      case _ => []
  }

  /** Thread `t` is in the handler, on behalf of its own rendezvous `e`. */
  predicate Inside(s: State, t: Thread, e: nat) {
    t in s.phase && (s.phase[t] == LoopHead(ToCaller(e)) || s.phase[t] == Blocked(ToCaller(e)))
  }

  /** Exactly the callers that have not returned are in the handler for their rendezvous. */
  ghost predicate Owners(s: State) {
    && (forall t, e: nat | Inside(s, t, e) :: e < |s.epochs| && s.epochs[e].caller == t)
    && (forall e: nat | e < |s.epochs| :: e in s.returned <==> !Inside(s, s.epochs[e].caller, e))
  }

  lemma {:induction false} OpenedSame(a: seq<Epoch>, b: seq<Epoch>, t: Thread)
    requires |a| == |b|
    requires forall i | 0 <= i < |a| :: a[i].caller == b[i].caller && a[i].dest == b[i].dest && a[i].func == b[i].func
    ensures Opened(a, t) == Opened(b, t)
  {
    if a != [] {
      OpenedSame(a[..|a| - 1], b[..|b| - 1], t);
    }
  }

  /** The phase of a thread after a step of another one: a completion wakes it, and no more. */
  lemma OthersKeepUnmet(s: State, step: Step, t: Thread)
    requires Enabled(s, step) && (step.Activate? || step.t != t)
    ensures Unmet(Apply(s, step), t) == Unmet(s, t)
    ensures forall e: nat :: Inside(Apply(s, step), t, e) <==> Inside(s, t, e)
  {
  }

  /** What a step opens for thread `t`. */
  function Opens(s: State, step: Step, t: Thread): seq<Ask> {
    if step == Open(t) && s.shared.func.None? then Unmet(s, t) else []
  }

  lemma StepOpens(s: State, step: Step, t: Thread)
    requires Inv(s) && Enabled(s, step)
    ensures Opened(Apply(s, step).epochs, t) == Opened(s.epochs, t) + Opens(s, step, t)
  {
    hide Inv, Apply;
    var s' := Apply(s, step);
    SameButLast(s, step);
    if step.Open? && s.shared.func.None? {
      assert s'.epochs[..|s'.epochs| - 1] == s.epochs;
    } else {
      OpenedSame(s.epochs, s'.epochs, t);
    }
  }

  /** A step adds the rendezvous it opens and leaves caller, targets and function of the others alone. */
  lemma SameButLast(s: State, step: Step)
    requires Enabled(s, step)
    ensures
      var s' := Apply(s, step);
      if step.Open? && s.shared.func.None? then
        var p := s.phase[step.t];
        s'.epochs == s.epochs + [Epoch(step.t, p.dest, p.f, None, multiset{}, false)]
      else
        && |s'.epochs| == |s.epochs|
        && forall i | 0 <= i < |s.epochs| ::
             s.epochs[i].caller == s'.epochs[i].caller && s.epochs[i].dest == s'.epochs[i].dest &&
             s.epochs[i].func == s'.epochs[i].func
  {
    hide Broadcast, LoopTurn, AfterReturn;
  }

  lemma StepAsks(s: State, step: Step, t: Thread)
    requires Enabled(s, step)
    ensures Opens(s, step, t) + Unmet(Apply(s, step), t) == Unmet(s, t) + AskedBy(step, t)
  {
    hide LoopTurn, Record;
    if step.Activate? || step.t != t {
      OthersKeepUnmet(s, step, t);
    }
  }

  /** Thread `t` returns from its own rendezvous `e`. */
  predicate Leaves(s: State, step: Step, t: Thread, e: nat)
    requires Enabled(s, step)
  {
    step == Handle(t) && Inside(s, t, e) && t in Apply(s, step).phase && !Apply(s, step).phase[t].Blocked?
  }

  lemma StepKeepsOwners(s: State, step: Step)
    requires Inv(s) && Owners(s) && Enabled(s, step)
    ensures Owners(Apply(s, step))
  {
    NotYetReturned(s);
    hide Inv, Apply, Inside, Leaves;
    InsideLater(s, step);
    ReturnedLater(s, step);
    EpochsLater(s, step);
    var s' := Apply(s, step);
    forall e: nat | e < |s'.epochs|
      ensures e in s'.returned <==> !Inside(s', s'.epochs[e].caller, e)
    {
      if e < |s.epochs| {
        assert e in s.returned <==> !Inside(s, s.epochs[e].caller, e);
      }
    }
  }

  lemma NotYetReturned(s: State)
    requires Inv(s)
    ensures forall e <- s.returned :: e < |s.epochs|
  {
  }

  /** Opening brings the caller inside its rendezvous, and returning takes it out. */
  lemma InsideLater(s: State, step: Step)
    requires Enabled(s, step)
    ensures forall t, e: nat :: Inside(Apply(s, step), t, e) <==>
              (Inside(s, t, e) && !Leaves(s, step, t, e)) || (step == Open(t) && s.shared.func.None? && e == |s.epochs|)
    ensures forall t, e: nat | Leaves(s, step, t, e) :: Inside(s, t, e) && step == Handle(t)
  {
    hide LoopTurn, Record;
    forall t, e: nat
      ensures Inside(Apply(s, step), t, e) <==>
              (Inside(s, t, e) && !Leaves(s, step, t, e)) || (step == Open(t) && s.shared.func.None? && e == |s.epochs|)
    {
      if step.Activate? || step.t != t {
        OthersKeepUnmet(s, step, t);
      }
    }
  }

  lemma ReturnedLater(s: State, step: Step)
    requires Enabled(s, step)
    ensures forall e: nat :: e in Apply(s, step).returned <==> e in s.returned || (step.Handle? && Leaves(s, step, step.t, e))
  {
    hide LoopTurn, Record;
  }

  lemma EpochsLater(s: State, step: Step)
    requires Enabled(s, step)
    ensures
      var s' := Apply(s, step);
      && (forall e: nat | e < |s.epochs| :: e < |s'.epochs| && s'.epochs[e].caller == s.epochs[e].caller)
      && (if step.Open? && s.shared.func.None? then |s'.epochs| == |s.epochs| + 1 && s'.epochs[|s.epochs|].caller == step.t
          else |s'.epochs| == |s.epochs|)
  {
    hide LoopTurn, Broadcast, AfterReturn;
  }

  lemma {:induction false} RunKeepsAsks(s: State, steps: seq<Step>, s': State, t: Thread)
    requires Inv(s) && Owners(s) && Run(s, steps, s')
    ensures Inv(s') && Owners(s')
    ensures Opened(s'.epochs, t) + Unmet(s', t) == Opened(s.epochs, t) + Unmet(s, t) + Asked(steps, t)
    decreases |steps|
  {
    hide Inv, Owners, Opened, Unmet, Apply;
    if steps != [] {
      var step, s1 := steps[0], Apply(s, steps[0]);
      StepPreserves(s, step);
      StepOpens(s, step, t);
      StepAsks(s, step, t);
      StepKeepsOwners(s, step);
      RunKeepsAsks(s1, steps[1..], s', t);
      Regroup(Opened(s.epochs, t), Opens(s, step, t), Unmet(s1, t), Unmet(s, t), AskedBy(step, t), Asked(steps[1..], t));
    }
  }

  lemma Regroup(before: seq<Ask>, opens: seq<Ask>, unmet': seq<Ask>, unmet: seq<Ask>, asked: seq<Ask>, later: seq<Ask>)
    requires opens + unmet' == unmet + asked
    ensures (before + opens) + unmet' + later == before + unmet + (asked + later)
  {
    assert (before + opens) + unmet' + later == before + (opens + unmet') + later;
  }

  /** In every interleaving a thread's requests are, in order, the rendezvous it has opened, followed by the
      one it is still trying to open, if any.  When the thread is outside again, all of them have been
      opened, have completed and have returned. */
  lemma NoRequestIsForgotten(init: State, steps: seq<Step>, s: State, t: Thread)
    requires Init(init) && Run(init, steps, s)
    ensures Asked(steps, t) == Opened(s.epochs, t) + Unmet(s, t) && |Unmet(s, t)| <= 1
    ensures t in s.phase && s.phase[t].Outside? ==>
              && Asked(steps, t) == Opened(s.epochs, t)
              && forall e: nat | e < |s.epochs| && s.epochs[e].caller == t :: s.epochs[e].complete && e in s.returned
  {
    InitInv(init);
    InitOwners(init, t);
    hide Inv, Owners, Opened, Run;
    RunKeepsAsks(init, steps, s, t);
    assert [] + [] + Asked(steps, t) == Asked(steps, t);
    hide Unmet;
    if t in s.phase && s.phase[t].Outside? {
      OutsideIsDone(s, t);
    }
  }

  lemma InitOwners(s: State, t: Thread)
    requires Init(s)
    ensures Owners(s) && Opened(s.epochs, t) == [] && Unmet(s, t) == []
  {
  }

  lemma OutsideIsDone(s: State, t: Thread)
    requires Inv(s) && Owners(s) && t in s.phase && s.phase[t].Outside?
    ensures Unmet(s, t) == []
    ensures forall e: nat | e < |s.epochs| && s.epochs[e].caller == t :: s.epochs[e].complete && e in s.returned
  {
    hide AtMostOneOpen, ExactlyOnce, PhasesInv, OpenInv;
  }

  lemma {:induction false} NothingAsked(steps: seq<Step>, t: Thread)
    requires OnlyProgress(steps)
    ensures Asked(steps, t) == []
  {
    if steps != [] {
      assert steps[0].Open? || steps[0].Notice? || steps[0].Handle?;
      NothingAsked(steps[1..], t);
    }
  }

  /** Without new requests, a thread that has nothing left to open stays so. */
  lemma {:induction false} StaysMet(s: State, steps: seq<Step>, s': State, t: Thread)
    requires Run(s, steps, s') && OnlyProgress(steps) && Unmet(s, t) == []
    ensures Unmet(s', t) == []
    decreases |steps|
  {
    if steps != [] {
      assert steps[0].Open? || steps[0].Notice? || steps[0].Handle?;
      StepAsks(s, steps[0], t);
      hide Apply, Unmet;
      StaysMet(Apply(s, steps[0]), steps[1..], s', t);
    }
  }

  /** Completes the open rendezvous, if there is one. */
  lemma CompleteOpen(s: State) returns (steps: seq<Step>, s': State)
    requires Inv(s)
    ensures Run(s, steps, s') && OnlyProgress(steps) && Inv(s') && s'.shared.func.None?
  {
    steps, s' := [], s;
    if s.shared.func.Some? {
      steps, s' := CanAlwaysComplete(s);
    }
  }

  /** With the slot free, a thread that is trying to open a rendezvous can open it. */
  lemma OpenNext(s: State, t: Thread) returns (steps: seq<Step>, s': State)
    requires Inv(s) && s.shared.func.None? && Unmet(s, t) != []
    ensures Run(s, steps, s') && OnlyProgress(steps) && s'.shared.func.Some? && Unmet(s', t) == []
  {
    assert !Waiting(s, t);
    var s1 := if s.phase[t].LoopHead? then Apply(s, Handle(t)) else s;
    steps, s' := if s.phase[t].LoopHead? then [Handle(t), Open(t)] else [Open(t)], Apply(s1, Open(t));
    assert [Handle(t), Open(t)][1..] == [Open(t)] && [Open(t)][1..] == [];
    assert Run(s', [], s') && Run(s1, [Open(t)], s');
  }

  /** Every request can be served: from every reachable state, some schedule of the threads already there
      opens what `t` is trying to open and completes it. */
  lemma CanAlwaysServe(s: State, t: Thread) returns (steps: seq<Step>, s': State)
    requires Inv(s) && Owners(s)
    ensures Run(s, steps, s') && OnlyProgress(steps) && Inv(s') && s'.shared.func.None?
    ensures Unmet(s', t) == [] && Opened(s'.epochs, t) == Opened(s.epochs, t) + Unmet(s, t)
    ensures forall e: nat | e < |s'.epochs| && s'.epochs[e].caller == t :: s'.epochs[e].complete
  {
    hide Inv, Owners, Opened, Unmet, Run, OnlyProgress;
    steps, s' := CompleteOpen(s);
    if Unmet(s', t) != [] {
      RunKeepsAsks(s, steps, s', t);
      var p, s2 := ServeNext(s', t);
      RunConcat(s, steps, s', p, s2);
      ProgressOn(steps, p);
      steps, s' := steps + p, s2;
    }
    RunKeepsAsks(s, steps, s', t);
    NothingAsked(steps, t);
    assert Opened(s'.epochs, t) + [] == Opened(s'.epochs, t);
    assert Opened(s.epochs, t) + Unmet(s, t) + [] == Opened(s.epochs, t) + Unmet(s, t);
    AllComplete(s');
  }

  lemma ServeNext(s: State, t: Thread) returns (steps: seq<Step>, s': State)
    requires Inv(s) && s.shared.func.None? && Unmet(s, t) != []
    ensures Run(s, steps, s') && OnlyProgress(steps) && Inv(s') && s'.shared.func.None? && Unmet(s', t) == []
  {
    hide Inv, Unmet, Run, OnlyProgress;
    var p, s1 := OpenNext(s, t);
    RunPreserves(s, p, s1);
    steps, s' := CanAlwaysComplete(s1);
    StaysMet(s1, steps, s', t);
    RunConcat(s, p, s1, steps, s');
    ProgressOn(p, steps);
    steps := p + steps;
  }

  lemma ProgressOn(p: seq<Step>, q: seq<Step>)
    requires OnlyProgress(p) && OnlyProgress(q)
    ensures OnlyProgress(p + q)
  {
  }

  lemma AllComplete(s: State)
    requires Inv(s) && s.shared.func.None?
    ensures forall e: nat | e < |s.epochs| :: s.epochs[e].complete
  {
  }
}
