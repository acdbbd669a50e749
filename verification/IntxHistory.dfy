/** What the guest and the devices have asked of the legacy interrupts, step by step, and how the state of
    devices and lines follows from it: no raised interrupt is forgotten and none is made up. */
module IntxHistory {
  import opened PciIntx

  /** What the steps so far ask of a device: whether its interrupt is raised, the last configuration written
      and whether the update after it is still to come. */
  datatype Wish = Wish(raised: bool, msi: bool, msix: bool, disabled: bool, waiting: bool)

  function Wished(w: Wish, step: Step, i: nat): Wish {
    match step
    case Raise(k) => if k == i then w.(raised := true) else w
    case Lower(k) => if k == i then w.(raised := false) else w
    case Configure(k, msi, msix, disabled) =>
      if k == i then w.(msi := msi, msix := msix, disabled := disabled, waiting := true) else w
    case Update(k) => if k == i then w.(waiting := false) else w
    case Reroute(_, _) => w
  }

  function Wishes(w: Wish, steps: seq<Step>, i: nat): Wish
    decreases |steps|
  {
    if steps == [] then w else Wishes(Wished(w, steps[0], i), steps[1..], i)
  }

  /** The routing register of a pin: the disable bit and the line of the last value written. */
  function Routed(reg: bv8, step: Step, pin: nat): bv8 {
    if step.Reroute? && step.pin == pin then step.val & 0x8f else reg
  }

  function Routing(reg: bv8, steps: seq<Step>, pin: nat): bv8
    decreases |steps|
  {
    if steps == [] then reg else Routing(Routed(reg, steps[0], pin), steps[1..], pin)
  }

  /** The wish that a device's fields stand for. */
  function WishOf(d: Device): Wish {
    Wish(!d.intx.Idle?, d.msi, d.msix, d.intxDisabled, d.dirty)
  }

  /** Pins and lines of a device are fixed. */
  predicate SameWiring(d: Device, d': Device) {
    d'.hasPin == d.hasPin && d'.pirqPin == d.pirqPin && d'.ioapicIrq == d.ioapicIrq
  }

  lemma DeviceFollows(s: Fabric, step: Step, i: nat)
    requires Shape(s) && Enabled(s, step) && i < |s.devices|
    ensures
      var s' := Apply(s, step);
      && |s'.devices| == |s.devices| && |s'.ioapic| == |s.ioapic|
      && SameWiring(s.devices[i], s'.devices[i]) && WishOf(s'.devices[i]) == Wished(WishOf(s.devices[i]), step, i)
  {
    hide Shape, LintrAssert, LintrDeassert, LintrUpdate, ConfigWrite, PirqWrite;
    match step
    case Raise(k) => RaisedDevices(s, k);
    case Lower(k) => LoweredDevices(s, k);
    case Update(k) => UpdatedDevices(s, k);
    case Configure(k, msi, msix, disabled) => ConfiguredDevices(s, k, msi, msix, disabled);
    case Reroute(pin, val) => ReroutedDevices(s, pin, val);
  }

  /** A raised device is asserted or pending. */
  lemma RaisedDevices(s: Fabric, i: nat)
    requires Shape(s) && i < |s.devices| && s.devices[i].hasPin
    ensures
      var s' := LintrAssert(s, i);
      && |s'.devices| == |s.devices| && |s'.ioapic| == |s.ioapic| && !s'.devices[i].intx.Idle?
      && s'.devices == s.devices[i := s.devices[i].(intx := s'.devices[i].intx)]
  {
    assert s.devices[i] in s.devices;
  }

  lemma LoweredDevices(s: Fabric, i: nat)
    requires Shape(s) && i < |s.devices| && s.devices[i].hasPin
    ensures
      var s' := LintrDeassert(s, i);
      && |s'.devices| == |s.devices| && |s'.ioapic| == |s.ioapic|
      && s'.devices == s.devices[i := s.devices[i].(intx := Idle)]
  {
    assert s.devices[i] in s.devices;
  }

  /** An update neither forgets nor makes up an interrupt. */
  lemma UpdatedDevices(s: Fabric, i: nat)
    requires Shape(s) && i < |s.devices|
    ensures
      var s' := LintrUpdate(s, i);
      && |s'.devices| == |s.devices| && |s'.ioapic| == |s.ioapic| && s'.devices[i].intx.Idle? == s.devices[i].intx.Idle?
      && s'.devices == s.devices[i := s.devices[i].(intx := s'.devices[i].intx, dirty := false)]
  {
    assert s.devices[i] in s.devices;
  }

  lemma ConfiguredDevices(s: Fabric, i: nat, msi: bool, msix: bool, disabled: bool)
    requires i < |s.devices|
    ensures
      var s' := ConfigWrite(s, i, msi, msix, disabled);
      && |s'.ioapic| == |s.ioapic|
      && s'.devices == s.devices[i := s.devices[i].(msi := msi, msix := msix, intxDisabled := disabled, dirty := true)]
  {
  }

  lemma ReroutedDevices(s: Fabric, pin: nat, val: bv8)
    requires Shape(s) && 1 <= pin <= PINS
    ensures PirqWrite(s, pin, val).devices == s.devices && PirqWrite(s, pin, val).ioapic == s.ioapic
  {
    hide ValidIrq, Irq;
  }

  lemma PinMovedKeeps()
    ensures forall s: Fabric, pin: nat, irq: nat, delta: int |
              Shape(s) && pin <= PINS && irq < |s.ioapic| && (delta == 1 || delta == -1) ::
              var s' := PinMoved(s, pin, irq, delta);
              && s'.devices == s.devices && |s'.ioapic| == |s.ioapic| && |s'.pirqs| == |s.pirqs|
              && forall k | 0 <= k < PINS :: s'.pirqs[k].reg == s.pirqs[k].reg
  {
  }

  lemma PinFollows(s: Fabric, step: Step, k: nat)
    requires Shape(s) && Enabled(s, step) && k < PINS
    ensures |Apply(s, step).pirqs| == PINS && Apply(s, step).pirqs[k].reg == Routed(s.pirqs[k].reg, step, k + 1)
  {
    hide PinMoved;
    PinMovedKeeps();
  }

  // ---------------------------------------------------------------------------
  // Whole runs
  // ---------------------------------------------------------------------------

  lemma {:induction false} RunFollows(s: Fabric, steps: seq<Step>, s': Fabric, i: nat)
    requires Inv(s) && Run(s, steps, s') && i < |s.devices|
    ensures |s'.devices| == |s.devices| && SameWiring(s.devices[i], s'.devices[i])
    ensures WishOf(s'.devices[i]) == Wishes(WishOf(s.devices[i]), steps, i)
    decreases |steps|
  {
    if steps != [] {
      StepInv(s, steps[0]);
      DeviceFollows(s, steps[0], i);
      hide Inv, Apply, WishOf, Wished;
      RunFollows(Apply(s, steps[0]), steps[1..], s', i);
    }
  }

  lemma {:induction false} RunRoutes(s: Fabric, steps: seq<Step>, s': Fabric, k: nat)
    requires Inv(s) && Run(s, steps, s') && k < PINS
    ensures |s.pirqs| == |s'.pirqs| == PINS && s'.pirqs[k].reg == Routing(s.pirqs[k].reg, steps, k + 1)
    decreases |steps|
  {
    if steps != [] {
      StepInv(s, steps[0]);
      PinFollows(s, steps[0], k);
      hide Counts, AllSettled, Apply;
      RunRoutes(Apply(s, steps[0]), steps[1..], s', k);
    }
  }

  /** The interrupt of device `i` is raised, and its last configuration permits INTx. */
  predicate Driving(w: Wish) {
    w.raised && !w.msi && !w.msix && !w.disabled
  }

  /** No raised interrupt is forgotten: in every run, a device is idle iff the last thing it did was to lower
      its interrupt, or it never raised it.  Once updated, it is asserted iff its interrupt is raised and its
      last configuration permits it. */
  lemma NoInterruptIsForgotten(init: Fabric, steps: seq<Step>, s: Fabric, i: nat)
    requires Init(init) && (InitInv(init); Run(init, steps, s)) && i < |init.devices|
    ensures
      var w := Wishes(WishOf(init.devices[i]), steps, i);
      && |s.devices| == |init.devices|
      && (s.devices[i].intx.Idle? <==> !w.raised)
      && (!w.waiting ==> (s.devices[i].intx.Asserted? <==> Driving(w)))
  {
    InitInv(init);
    RunFollows(init, steps, s, i);
    RunInv(init, steps, s);
    assert s.devices[i] in s.devices;
  }

  /** Lines 3-7, 9-12 and 14-15 can be routed to, unless bit 7 of the register is set. */
  predicate RoutesTo(reg: bv8, line: nat) {
    reg & 0x80 == 0 && (reg & 0x0f) as nat == line && (3 <= line <= 7 || 9 <= line <= 12 || 14 <= line <= 15)
  }

  /** By the steps so far, device `i` drives the PIC line: through the pin it is wired to, as last routed. */
  ghost predicate DrivesPic(init: Fabric, steps: seq<Step>, i: nat, line: nat)
    requires Shape(init) && i < |init.devices|
  {
    var pin := init.devices[i].pirqPin;
    && Driving(Wishes(WishOf(init.devices[i]), steps, i)) && 1 <= pin <= PINS
    && RoutesTo(Routing(init.pirqs[pin - 1].reg, steps, pin), line)
  }

  /** By the steps so far, device `i` drives the I/O APIC pin it is wired to. */
  ghost predicate DrivesIoapic(init: Fabric, steps: seq<Step>, i: nat, irq: nat)
    requires i < |init.devices|
  {
    Driving(Wishes(WishOf(init.devices[i]), steps, i)) && init.devices[i].ioapicIrq == irq
  }

  predicate OnLine(s: Fabric, d: Device, line: nat)
    requires Shape(s) && d.pirqPin <= PINS
  {
    d.intx.Asserted? && d.pirqPin > 0 && ValidIrq(s.pirqs[d.pirqPin - 1].reg) && Irq(s.pirqs[d.pirqPin - 1].reg) == line
  }

  lemma DeviceDrives(init: Fabric, steps: seq<Step>, s: Fabric, i: nat, line: nat, irq: nat)
    requires Init(init) && (InitInv(init); Run(init, steps, s)) && i < |init.devices|
    requires !Wishes(WishOf(init.devices[i]), steps, i).waiting
    ensures i < |s.devices| && Shape(s) && s.devices[i].pirqPin <= PINS
    ensures OnLine(s, s.devices[i], line) <==> DrivesPic(init, steps, i, line)
    ensures OnIoapic(irq)(s.devices[i]) <==> DrivesIoapic(init, steps, i, irq)
  {
    hide PinCounts, PicCounts, IoapicCounts, AllSettled, Wishes, WishOf, Driving, Routing;
    InitInv(init);
    NoInterruptIsForgotten(init, steps, s, i);
    RunFollows(init, steps, s, i);
    RunInv(init, steps, s);
    var pin := init.devices[i].pirqPin;
    assert s.devices[i] in s.devices;
    if pin > 0 {
      RunRoutes(init, steps, s, pin - 1);
    }
    hide Run, Init;
  }

  /** Once all updates have been made, a line of the PIC is high iff some device drives it, and so is a pin of
      the I/O APIC. */
  lemma LinesFollow(init: Fabric, steps: seq<Step>, s: Fabric, line: nat, irq: nat)
    requires Init(init) && (InitInv(init); Run(init, steps, s)) && line < LINES
    requires forall i: nat | i < |init.devices| :: !Wishes(WishOf(init.devices[i]), steps, i).waiting
    ensures line < |s.pic| && (s.pic[line] > 0 <==> exists i: nat | i < |init.devices| :: DrivesPic(init, steps, i, line))
    ensures irq < |s.ioapic| ==>
              (s.ioapic[irq] > 0 <==> exists i: nat | i < |init.devices| :: DrivesIoapic(init, steps, i, irq))
  {
    InitInv(init);
    RunInv(init, steps, s);
    SameNumber(init, steps, s);
    hide Inv, DrivesPic, DrivesIoapic, OnLine, OnIoapic;
    forall i: nat | i < |init.devices|
      ensures Shape(s) && s.devices[i].pirqPin <= PINS && (OnLine(s, s.devices[i], line) <==> DrivesPic(init, steps, i, line))
      ensures OnIoapic(irq)(s.devices[i]) <==> DrivesIoapic(init, steps, i, irq)
    {
      DeviceDrives(init, steps, s, i, line, irq);
    }
    hide Run, Wishes, WishOf, Init;
    LineHigh(s, line);
    if irq < |s.ioapic| {
      PinHigh(s, irq);
    }
  }

  lemma PinHigh(s: Fabric, irq: nat)
    requires Inv(s) && irq < |s.ioapic|
    ensures s.ioapic[irq] > 0 <==> exists i: nat | i < |s.devices| :: OnIoapic(irq)(s.devices[i])
  {
    CountPositive(s.devices, OnIoapic(irq));
    hide PinCounts, PicCounts, AllSettled, OnIoapic;
    if s.ioapic[irq] > 0 {
      var d :| d in s.devices && OnIoapic(irq)(d);
      var i :| 0 <= i < |s.devices| && s.devices[i] == d;
    }
    if i: nat :| i < |s.devices| && OnIoapic(irq)(s.devices[i]) {
      assert s.devices[i] in s.devices;
    }
  }

  lemma {:induction false} SameNumber(s: Fabric, steps: seq<Step>, s': Fabric)
    requires Inv(s) && Run(s, steps, s')
    ensures |s'.devices| == |s.devices|
    decreases |steps|
  {
    if steps != [] {
      StepInv(s, steps[0]);
      StepNumber(s, steps[0]);
      hide Inv, Apply;
      SameNumber(Apply(s, steps[0]), steps[1..], s');
    }
  }

  lemma StepNumber(s: Fabric, step: Step)
    requires Shape(s) && Enabled(s, step)
    ensures |Apply(s, step).devices| == |s.devices|
  {
    if |s.devices| > 0 {
      DeviceFollows(s, step, 0);
    } else {
      assert step.Reroute?;
      ReroutedDevices(s, step.pin, step.val);
    }
  }

  lemma LineHigh(s: Fabric, line: nat)
    requires Inv(s) && line < LINES
    ensures Shape(s) && forall d <- s.devices :: d.pirqPin <= PINS
    ensures s.pic[line] > 0 <==> exists i: nat | i < |s.devices| :: s.devices[i].pirqPin <= PINS && OnLine(s, s.devices[i], line)
  {
    LineHighIff(s, line);
    if s.pic[line] > 0 {
      var d :| d in s.devices && OnLine(s, d, line);
      var i :| 0 <= i < |s.devices| && s.devices[i] == d;
    }
    if i: nat :| i < |s.devices| && s.devices[i].pirqPin <= PINS && OnLine(s, s.devices[i], line) {
      assert s.devices[i] in s.devices;
    }
  }
}
