/** A SATA disk: an AHCI port together with the block device behind it.

    While the port's lock is held, the port cancels and issues requests; in between, the device's worker
    may take turns and begin callbacks, which then wait for the lock.  A callback that begins takes its
    request off the outstanding ones of both. */
module SataDisk {
  import Port = AhciPort
  import Runs = AhciRun
  import Disk = BlockWorker
  import Queue = BlockQueue

  datatype Joint = Joint(port: Port.Port, disk: Disk.State)

  /** `ops` are the calls of the block device by which the port's outstanding requests lose `gone`, by
      cancellation, and gain `came`, together with turns of the worker and the callbacks, of the requests
      `begun`, that it begins meanwhile. */
  ghost predicate Serves(d: Disk.State, ops: seq<Disk.Step>, gone: set<nat>, came: set<nat>, begun: set<nat>,
                         d': Disk.State)
    requires Disk.Inv(d)
    decreases |ops|
  {
    if ops == [] then gone == {} && came == {} && begun == {} && d' == d
    else
      && Disk.Enabled(d, ops[0])
      && (ops[0].Issue? ==> ops[0].req.id in came)
      && (ops[0].Withdraw? ==> ops[0].id in gone && Disk.IsPending(d, ops[0].id))
      && Begun(d, ops[0]) <= begun
      && (Disk.StepKeeps(d, ops[0]);
          Serves(Disk.Apply(d, ops[0]), ops[1..], gone - Withdrawn(ops[0]), came - Issued(ops[0]),
                 begun - Begun(d, ops[0]), d'))
  }

  function Withdrawn(op: Disk.Step): set<nat> {
    if op.Withdraw? then {op.id} else {}
  }

  function Issued(op: Disk.Step): set<nat> {
    if op.Issue? then {op.req.id} else {}
  }

  function Gone(p: Port.Port, p': Port.Port): set<nat> {
    p.outstanding - p'.outstanding
  }

  function Came(p: Port.Port, p': Port.Port): set<nat> {
    p'.outstanding - p.outstanding
  }

  /** The request whose callback begins. */
  function Begun(d: Disk.State, op: Disk.Step): set<nat> {
    if op.BeginCallback? && d.worker.Processing? then {Disk.IdOf(d.q.elems, d.worker.be)} else {}
  }

  /** A critical section of the port takes it to `after`, except that the requests `begun`, whose callbacks
      have begun meanwhile, are no longer outstanding.  A callback that has begun is not cancelled. */
  datatype Step =
    | PortStep(step: Runs.Step, after: Port.Port, ops: seq<Disk.Step>, begun: set<nat>)
    | WorkerStep(op: Disk.Step)
    | CallbackBegins

  ghost predicate Agree(j: Joint) {
    && Port.Inv(j.port) && Disk.Inv(j.disk)
    && j.disk.outstanding == j.port.outstanding && j.disk.refusals == 0
  }

  ghost predicate Next(j: Joint, step: Step, j': Joint)
    requires Agree(j)
  {
    match step
    case PortStep(s, after, ops, begun) =>
      && !s.BeginCallback? && Runs.Enabled(j.port, s) && Runs.Next(j.port, s, after)
      && j'.port == after.(outstanding := after.outstanding - begun)
      && Gone(j.port, after) !! begun && Serves(j.disk, ops, Gone(j.port, after), Came(j.port, after), begun, j'.disk)
    case WorkerStep(op) =>
      && (op.Turn? || op.SpuriousWakeup? || op.SetClosing? || op.BroadcastClosing?)
      && Disk.Enabled(j.disk, op) && j'.disk == Disk.Apply(j.disk, op) && j'.port == j.port
    case CallbackBegins =>
      && j.disk.worker.Processing? && j'.disk == Disk.Apply(j.disk, Disk.BeginCallback)
      && j'.port == j.port.(outstanding := j.port.outstanding - {Disk.IdOf(j.disk.q.elems, j.disk.worker.be)})
  }

  // ---------------------------------------------------------------------------
  // Every request is accepted
  // ---------------------------------------------------------------------------

  /** One step of the device changes the outstanding requests as it should, and refuses nothing. */
  lemma OneOp(d: Disk.State, op: Disk.Step)
    requires Disk.Inv(d) && Disk.Enabled(d, op)
    requires op.Issue? ==> |d.outstanding| < Disk.QueueSize()
    requires op.Withdraw? ==> Disk.IsPending(d, op.id)
    ensures
      var d' := Disk.Apply(d, op);
      && Disk.Inv(d') && d'.refusals == d.refusals
      && d'.outstanding == d.outstanding - Withdrawn(op) + Issued(op) - Begun(d, op)
  {
    hide Disk.Inv, Queue.EnqueueSpec, Queue.CompleteSpec, Disk.Settled, Queue.FirstPend, Queue.StartSpec, Queue.FindReq,
      Disk.Signal;
    Disk.StepKeeps(d, op);
    if op.Issue? {
      Disk.RoomForOneMore(d);
    }
  }

  lemma BegunWasOutstanding(d: Disk.State, op: Disk.Step)
    requires Disk.Inv(d)
    ensures Begun(d, op) <= d.outstanding
  {
    if op.BeginCallback? && d.worker.Processing? {
      hide Queue.Valid, Disk.IdBag;
      assert Disk.IdOf(d.q.elems, d.worker.be) in multiset(d.outstanding);
    }
  }

  /** The steps of the device within a critical section leave the outstanding requests that the port and
      the callbacks account for, and refuse nothing. */
  lemma {:induction false} ServesWell(d: Disk.State, ops: seq<Disk.Step>, gone: set<nat>, came: set<nat>, begun: set<nat>,
                                      d': Disk.State)
    requires Disk.Inv(d) && Serves(d, ops, gone, came, begun, d')
    requires gone <= d.outstanding && came !! d.outstanding && gone !! begun
    requires |d.outstanding| + |came| <= Disk.QueueSize()
    ensures Disk.Inv(d') && d'.refusals == d.refusals && d'.outstanding == d.outstanding - gone + came - begun
    decreases |ops|
  {
    hide Disk.Inv, Disk.Apply, Disk.Enabled, Withdrawn, Issued, Begun, Disk.IsPending;
    if ops != [] {
      var op := ops[0];
      OneServed(d, op, gone, came, begun);
      var d1 := Disk.Apply(d, op);
      ServesWell(d1, ops[1..], gone - Withdrawn(op), came - Issued(op), begun - Begun(d, op), d');
    }
  }

  lemma OneServed(d: Disk.State, op: Disk.Step, gone: set<nat>, came: set<nat>, begun: set<nat>)
    requires Disk.Inv(d) && Disk.Enabled(d, op)
    requires op.Issue? ==> op.req.id in came
    requires op.Withdraw? ==> op.id in gone && Disk.IsPending(d, op.id)
    requires Begun(d, op) <= begun
    requires gone <= d.outstanding && came !! d.outstanding && gone !! begun
    requires |d.outstanding| + |came| <= Disk.QueueSize()
    ensures
      var d1 := Disk.Apply(d, op);
      var gone1, came1, begun1 := gone - Withdrawn(op), came - Issued(op), begun - Begun(d, op);
      && Disk.Inv(d1) && d1.refusals == d.refusals
      && gone1 <= d1.outstanding && came1 !! d1.outstanding && gone1 !! begun1
      && |d1.outstanding| + |came1| <= Disk.QueueSize()
      && d1.outstanding - gone1 + came1 - begun1 == d.outstanding - gone + came - begun
  {
    hide Disk.Inv, Disk.Apply, Disk.Enabled;
    if op.Issue? {
      Smaller(came, op.req.id);
    }
    OneOp(d, op);
    BegunWasOutstanding(d, op);
    assert Withdrawn(op) <= gone && Issued(op) <= came && |Issued(op)| <= 1;
    assert Begun(d, op) == {} || (Withdrawn(op) == {} && Issued(op) == {});
    hide Withdrawn, Issued, Begun;
    Room(d.outstanding, came, Withdrawn(op) + Begun(d, op), Issued(op));
    Rest(d.outstanding, gone, came, begun, Withdrawn(op), Issued(op), Begun(d, op));
  }

  /** After one step, the rest of the changes is still to be made. */
  lemma Rest(out: set<nat>, gone: set<nat>, came: set<nat>, begun: set<nat>, minus: set<nat>, plus: set<nat>, off: set<nat>)
    requires gone <= out && came !! out && gone !! begun && minus <= gone && plus <= came
    requires off <= begun && off <= out && (off == {} || (minus == {} && plus == {}))
    ensures
      var out' := out - minus + plus - off;
      && out' == out - (minus + off) + plus
      && gone - minus <= out' && came - plus !! out' && gone - minus !! begun - off
      && out' - (gone - minus) + (came - plus) - (begun - off) == out - gone + came - begun
  {
  }

  lemma Smaller(s: set<nat>, x: nat)
    requires x in s
    ensures |s| >= 1
  {
  }

  /** What one call takes from the requests to come it adds to the outstanding ones at most. */
  lemma Room(out: set<nat>, came: set<nat>, minus: set<nat>, plus: set<nat>)
    requires plus <= came && |plus| <= 1
    ensures |out - minus + plus| + |came - plus| <= |out| + |came|
  {
    Port.SubsetSize(out - minus, out);
    assert came == (came - plus) + plus;
    Port.SubsetSize(out - minus + plus, (out - minus) + plus);
    SumSize(out - minus, plus);
  }

  lemma SumSize(a: set<nat>, b: set<nat>)
    ensures |a + b| <= |a| + |b|
  {
    assert a + b == a + (b - a);
    Port.SubsetSize(b - a, b);
  }

  lemma NextAgrees(j: Joint, step: Step, j': Joint)
    requires Agree(j) && Next(j, step, j')
    ensures Agree(j')
  {
    match step
    case PortStep(s, after, ops, begun) =>
      Runs.NextInv(j.port, s, after);
      Runs.BeginCallbacksInv(after, begun);
      SectionAgrees(j, after, ops, begun, j'.disk);
    case WorkerStep(op) =>
      OneOp(j.disk, op);
    case CallbackBegins =>
      Disk.StepKeeps(j.disk, Disk.BeginCallback);
      Runs.BeginCallbacksInv(j.port, {Disk.IdOf(j.disk.q.elems, j.disk.worker.be)});
  }

  lemma SectionAgrees(j: Joint, after: Port.Port, ops: seq<Disk.Step>, begun: set<nat>, d: Disk.State)
    requires Agree(j) && Port.Inv(after) && Gone(j.port, after) !! begun
    requires Serves(j.disk, ops, Gone(j.port, after), Came(j.port, after), begun, d)
    ensures Disk.Inv(d) && d.outstanding == after.outstanding - begun && d.refusals == 0
  {
    hide Port.Inv, Disk.Inv, Serves;
    Runs.FewOutstanding(j.port);
    Runs.FewOutstanding(after);
    var p, p' := j.port.outstanding, after.outstanding;
    Port.SubsetSize(p' - p, p');
    ServesWell(j.disk, ops, p - p', p' - p, begun, d);
    assert p - (p - p') + (p' - p) == p';
  }

  // ---------------------------------------------------------------------------
  // Whole runs
  // ---------------------------------------------------------------------------

  ghost predicate Init(j: Joint) {
    Runs.Init(j.port) && Disk.Init(j.disk)
  }

  lemma InitAgrees(j: Joint)
    requires Init(j)
    ensures Agree(j)
  {
    Runs.InitInv(j.port);
    Disk.InitInv(j.disk);
  }

  ghost predicate Run(states: seq<Joint>, steps: seq<Step>)
    requires |states| == |steps| + 1 && Agree(states[0])
    decreases |steps|
  {
    steps != [] ==>
      Next(states[0], steps[0], states[1]) && (NextAgrees(states[0], steps[0], states[1]); Run(states[1..], steps[1..]))
  }

  lemma {:induction false} RunAgrees(states: seq<Joint>, steps: seq<Step>, k: nat)
    requires |states| == |steps| + 1 && Agree(states[0]) && Run(states, steps) && k <= |steps|
    ensures Agree(states[k])
    decreases |steps|
  {
    hide Agree, Next;
    if k > 0 {
      NextAgrees(states[0], steps[0], states[1]);
      RunAgrees(states[1..], steps[1..], k - 1);
    }
  }

  /** In every run of port and device together, what the port believes to be outstanding is what the
      device has accepted, and the device has refused nothing. */
  lemma NothingIsRefused(states: seq<Joint>, steps: seq<Step>, k: nat)
    requires |states| == |steps| + 1 && k <= |steps|
    requires Init(states[0]) && (InitAgrees(states[0]); Run(states, steps))
    ensures states[k].disk.refusals == 0 && states[k].disk.outstanding == states[k].port.outstanding
    ensures Runs.PendingExact(states[k].port) && Disk.NeverMissesWork(states[k].disk)
  {
    InitAgrees(states[0]);
    RunAgrees(states, steps, k);
    Runs.InvIsExact(states[k].port);
  }
}
