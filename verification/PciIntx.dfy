/** Legacy PCI interrupts: the INTx state of each device, the eight reference-counted PIRQ pins that
    the guest can reroute, and the interrupt controllers behind them.

    The two controllers are represented by the net number of assertions of each line.  Every
    operation is atomic, as the device lock and the pin lock make it; a configuration write and the
    update of the interrupt state that follows it are separate steps. */
module PciIntx {

  const PINS := 8
  const LINES := 16

  datatype Intx = Idle | Asserted | Pending

  /** `dirty` is set between a configuration write and the update that follows it. */
  datatype Device = Device(
    hasPin: bool, pirqPin: nat, ioapicIrq: nat, intx: Intx,
    msi: bool, msix: bool, intxDisabled: bool, dirty: bool)

  datatype Pirq = Pirq(reg: bv8, active: int)

  datatype Fabric = Fabric(devices: seq<Device>, pirqs: seq<Pirq>, pic: seq<int>, ioapic: seq<int>)

  // ---------------------------------------------------------------------------
  // Pins
  // ---------------------------------------------------------------------------

  const PIRQ_DIS: bv8 := 0x80
  const PIRQ_IRQ: bv8 := 0x0f

  function Irq(reg: bv8): (irq: nat)
    ensures irq < LINES
  {
    (reg & PIRQ_IRQ) as nat
  }

  /** Lines 3-7, 9-12 and 14-15. */
  predicate Permitted(irq: nat) {
    3 <= irq <= 7 || 9 <= irq <= 12 || 14 <= irq <= 15
  }

  predicate ValidIrq(reg: bv8) {
    reg & PIRQ_DIS == 0 && Permitted(Irq(reg))
  }

  /** The mask of permitted lines, 0xdef8, has just these bits. */
  lemma PermittedMask(irq: bv16)
    requires irq < 16
    ensures (1 << irq) & 0xdef8 != (0 as bv16) <==> Permitted(irq as nat)
  {
    assert irq == 0 || irq == 1 || irq == 2 || irq == 3 || irq == 4 || irq == 5 || irq == 6 || irq == 7
        || irq == 8 || irq == 9 || irq == 10 || irq == 11 || irq == 12 || irq == 13 || irq == 14 || irq == 15;
  }

  // ---------------------------------------------------------------------------
  // What has to hold
  // ---------------------------------------------------------------------------

  ghost function Count<T>(s: seq<T>, f: T -> bool): nat {
    if s == [] then 0 else (if f(s[0]) then 1 else 0) + Count(s[1..], f)
  }

  function One(b: bool): int { if b then 1 else 0 }

  ghost function OnPin(pin: nat): Device -> bool {
    (d: Device) => d.intx.Asserted? && d.pirqPin == pin
  }

  ghost function OnIoapic(irq: nat): Device -> bool {
    (d: Device) => d.intx.Asserted? && d.ioapicIrq == irq
  }

  /** An active pin that is validly routed to `line`. */
  ghost function RoutedTo(line: nat): Pirq -> bool {
    (p: Pirq) => p.active > 0 && ValidIrq(p.reg) && Irq(p.reg) == line
  }

  predicate LintrPermitted(d: Device) {
    !(d.msi || d.msix || d.intxDisabled)
  }

  /** Neither asserted while forbidden nor pending while permitted. */
  predicate Settled(d: Device) {
    (d.intx.Asserted? ==> LintrPermitted(d)) && (d.intx.Pending? ==> !LintrPermitted(d))
  }

  predicate Shape(s: Fabric) {
    && |s.pirqs| == PINS && |s.pic| == LINES
    && forall d <- s.devices :: d.pirqPin <= PINS && d.ioapicIrq < |s.ioapic| && (!d.hasPin ==> d.intx.Idle?)
  }

  /** A pin's active count is its number of asserted devices. */
  ghost predicate PinCounts(s: Fabric)
    requires Shape(s)
  {
    forall pin: nat | 1 <= pin <= PINS :: s.pirqs[pin - 1].active == Count(s.devices, OnPin(pin))
  }

  /** The net assertions of a PIC line are the active pins validly routed to it. */
  ghost predicate PicCounts(s: Fabric)
    requires Shape(s)
  {
    forall line: nat | line < LINES :: s.pic[line] == Count(s.pirqs, RoutedTo(line))
  }

  /** The net assertions of an I/O APIC pin are the asserted devices on it. */
  ghost predicate IoapicCounts(s: Fabric) {
    forall irq: nat | irq < |s.ioapic| :: s.ioapic[irq] == Count(s.devices, OnIoapic(irq))
  }

  ghost predicate Counts(s: Fabric) {
    Shape(s) && PinCounts(s) && PicCounts(s) && IoapicCounts(s)
  }

  ghost predicate AllSettled(s: Fabric) {
    forall d <- s.devices :: d.dirty || Settled(d)
  }

  ghost predicate Inv(s: Fabric) {
    Counts(s) && AllSettled(s)
  }

  lemma {:induction false} CountUpdate<T>(s: seq<T>, i: nat, x: T, f: T -> bool)
    requires i < |s|
    ensures Count(s[i := x], f) == Count(s, f) - One(f(s[i])) + One(f(x))
  {
    if i > 0 {
      assert s[i := x][1..] == s[1..][i - 1 := x];
      CountUpdate(s[1..], i - 1, x, f);
    } else {
      assert s[i := x][1..] == s[1..];
    }
  }

  lemma {:induction false} CountPositive<T>(s: seq<T>, f: T -> bool)
    ensures Count(s, f) > 0 <==> exists x <- s :: f(x)
  {
    if s != [] {
      CountPositive(s[1..], f);
      if x :| x in s[1..] && f(x) {
        assert x in s;
      }
    }
  }

  // ---------------------------------------------------------------------------
  // The operations
  // ---------------------------------------------------------------------------

  function Bump(s: seq<int>, i: nat, delta: int): seq<int>
    requires i < |s|
  {
    s[i := s[i] + delta]
  }

  /** Asserts (`delta` is 1) or deasserts (-1) the line of pin `pin` for a device on `ioapicIrq`: the
      PIC line moves only when the pin becomes active or inactive. */
  function PinMoved(s: Fabric, pin: nat, ioapicIrq: nat, delta: int): Fabric
    requires Shape(s) && pin <= PINS && ioapicIrq < |s.ioapic| && (delta == 1 || delta == -1)
  {
    if pin > 0 then
      var p := s.pirqs[pin - 1];
      var p' := p.(active := p.active + delta);
      var s1 := s.(pirqs := s.pirqs[pin - 1 := p']);
      if p'.active == (if delta == 1 then 1 else 0) && ValidIrq(p.reg) then
        s1.(pic := Bump(s.pic, Irq(p.reg), delta), ioapic := Bump(s.ioapic, ioapicIrq, delta))
      else s1.(ioapic := Bump(s.ioapic, ioapicIrq, delta))
    else s.(ioapic := Bump(s.ioapic, ioapicIrq, delta))
  }

  function WithIntx(s: Fabric, i: nat, intx: Intx): Fabric
    requires i < |s.devices|
  {
    s.(devices := s.devices[i := s.devices[i].(intx := intx)])
  }

  /** Device `i` goes from not asserted to asserted, or back, and moves its pin. */
  function Switched(s: Fabric, i: nat, intx: Intx): Fabric
    requires Shape(s) && i < |s.devices| && s.devices[i].hasPin
    requires intx.Asserted? != s.devices[i].intx.Asserted?
  {
    var d := s.devices[i];
    assert d in s.devices;
    PinMoved(WithIntx(s, i, intx), d.pirqPin, d.ioapicIrq, if intx.Asserted? then 1 else -1)
  }

  function LintrAssert(s: Fabric, i: nat): Fabric
    requires Shape(s) && i < |s.devices| && s.devices[i].hasPin
  {
    if !s.devices[i].intx.Idle? then s
    else if LintrPermitted(s.devices[i]) then Switched(s, i, Asserted)
    else WithIntx(s, i, Pending)
  }

  function LintrDeassert(s: Fabric, i: nat): Fabric
    requires Shape(s) && i < |s.devices| && s.devices[i].hasPin
  {
    match s.devices[i].intx
    case Asserted => Switched(s, i, Idle)
    case Pending => WithIntx(s, i, Idle)
    case Idle => s
  }

  function LintrUpdate(s: Fabric, i: nat): Fabric
    requires Shape(s) && i < |s.devices|
  {
    var d := s.devices[i];
    assert d in s.devices;
    var s1 :=
      if d.intx.Asserted? && !LintrPermitted(d) then Switched(s, i, Pending)
      else if d.intx.Pending? && LintrPermitted(d) then Switched(s, i, Asserted)
      else s;
    s1.(devices := s1.devices[i := s1.devices[i].(dirty := false)])
  }

  /** A write to the MSI, MSI-X or command register. */
  function ConfigWrite(s: Fabric, i: nat, msi: bool, msix: bool, intxDisabled: bool): Fabric
    requires i < |s.devices|
  {
    s.(devices := s.devices[i := s.devices[i].(msi := msi, msix := msix, intxDisabled := intxDisabled, dirty := true)])
  }

  /** The guest reroutes pin `pin`. */
  function PirqWrite(s: Fabric, pin: nat, val: bv8): Fabric
    requires Shape(s) && 1 <= pin <= PINS
  {
    var p, reg := s.pirqs[pin - 1], val & (PIRQ_DIS | PIRQ_IRQ);
    if p.reg == reg then s
    else
      var pic1 := if p.active != 0 && ValidIrq(p.reg) then Bump(s.pic, Irq(p.reg), -1) else s.pic;
      var pic2 := if p.active != 0 && ValidIrq(reg) then Bump(pic1, Irq(reg), 1) else pic1;
      s.(pirqs := s.pirqs[pin - 1 := p.(reg := reg)], pic := pic2)
  }

  // ---------------------------------------------------------------------------
  // Every operation keeps the counts
  // ---------------------------------------------------------------------------

  lemma WithIntxShape(s: Fabric, i: nat, d': Device)
    requires Shape(s) && i < |s.devices| && d'.pirqPin == s.devices[i].pirqPin
    requires d'.ioapicIrq == s.devices[i].ioapicIrq && (!d'.hasPin ==> d'.intx.Idle?)
    ensures Shape(s.(devices := s.devices[i := d']))
  {
    assert s.devices[i] in s.devices;
    assert forall d <- s.devices[i := d'] :: d == d' || d in s.devices;
  }

  /** The pin's count follows its devices. */
  lemma SwitchedPins(s: Fabric, i: nat, intx: Intx)
    requires Shape(s) && PinCounts(s) && i < |s.devices| && s.devices[i].hasPin
    requires intx.Asserted? != s.devices[i].intx.Asserted?
    ensures Shape(Switched(s, i, intx)) && PinCounts(Switched(s, i, intx))
  {
    var d := s.devices[i];
    assert d in s.devices;
    var d', s' := d.(intx := intx), Switched(s, i, intx);
    WithIntxShape(s, i, d');
    forall pin: nat | 1 <= pin <= PINS
      ensures s'.pirqs[pin - 1].active == Count(s'.devices, OnPin(pin))
    {
      CountUpdate(s.devices, i, d', OnPin(pin));
    }
  }

  lemma SwitchedIoapic(s: Fabric, i: nat, intx: Intx)
    requires Shape(s) && IoapicCounts(s) && i < |s.devices| && s.devices[i].hasPin
    requires intx.Asserted? != s.devices[i].intx.Asserted?
    ensures IoapicCounts(Switched(s, i, intx))
  {
    var d := s.devices[i];
    assert d in s.devices;
    var d', s' := d.(intx := intx), Switched(s, i, intx);
    forall irq: nat | irq < |s'.ioapic|
      ensures s'.ioapic[irq] == Count(s'.devices, OnIoapic(irq))
    {
      CountUpdate(s.devices, i, d', OnIoapic(irq));
    }
  }

  lemma SwitchedPic(s: Fabric, i: nat, intx: Intx)
    requires Shape(s) && PinCounts(s) && PicCounts(s) && i < |s.devices| && s.devices[i].hasPin
    requires intx.Asserted? != s.devices[i].intx.Asserted?
    ensures Shape(Switched(s, i, intx)) && PicCounts(Switched(s, i, intx))
  {
    var d := s.devices[i];
    assert d in s.devices;
    SwitchedPins(s, i, intx);
    var s' := Switched(s, i, intx);
    if d.pirqPin > 0 {
      var k := d.pirqPin - 1;
      assert s.pirqs[k].active == Count(s.devices, OnPin(k + 1));
      assert s'.pirqs[k].active == Count(s'.devices, OnPin(k + 1));
      forall line: nat | line < LINES
        ensures s'.pic[line] == Count(s'.pirqs, RoutedTo(line))
      {
        CountUpdate(s.pirqs, k, s'.pirqs[k], RoutedTo(line));
      }
    }
  }

  lemma SwitchedCounts(s: Fabric, i: nat, intx: Intx)
    requires Counts(s) && i < |s.devices| && s.devices[i].hasPin
    requires intx.Asserted? != s.devices[i].intx.Asserted?
    ensures Counts(Switched(s, i, intx))
  {
    SwitchedPins(s, i, intx);
    SwitchedIoapic(s, i, intx);
    SwitchedPic(s, i, intx);
  }

  /** Changes to a device that do not assert or deassert it leave all counts alone. */
  lemma QuietCounts(s: Fabric, i: nat, d': Device)
    requires Counts(s) && i < |s.devices| && d'.pirqPin == s.devices[i].pirqPin
    requires d'.ioapicIrq == s.devices[i].ioapicIrq && (!d'.hasPin ==> d'.intx.Idle?)
    requires d'.intx.Asserted? == s.devices[i].intx.Asserted?
    ensures Counts(s.(devices := s.devices[i := d']))
  {
    WithIntxShape(s, i, d');
    forall pin: nat
      ensures Count(s.devices[i := d'], OnPin(pin)) == Count(s.devices, OnPin(pin))
    {
      CountUpdate(s.devices, i, d', OnPin(pin));
    }
    forall irq: nat
      ensures Count(s.devices[i := d'], OnIoapic(irq)) == Count(s.devices, OnIoapic(irq))
    {
      CountUpdate(s.devices, i, d', OnIoapic(irq));
    }
  }

  lemma DeviceSettled(s: Fabric, i: nat, s': Fabric)
    requires AllSettled(s) && i < |s.devices| == |s'.devices|
    requires forall j | 0 <= j < |s.devices| && j != i :: s'.devices[j] == s.devices[j]
    requires s'.devices[i].dirty || Settled(s'.devices[i])
    ensures AllSettled(s')
  {
    forall d | d in s'.devices
      ensures d.dirty || Settled(d)
    {
      var j :| 0 <= j < |s'.devices| && s'.devices[j] == d;
      assert j != i ==> s.devices[j] in s.devices;
    }
  }

  lemma LintrAssertInv(s: Fabric, i: nat)
    requires Inv(s) && i < |s.devices| && s.devices[i].hasPin
    ensures Inv(LintrAssert(s, i))
  {
    var d, s' := s.devices[i], LintrAssert(s, i);
    assert d in s.devices;
    if d.intx.Idle? {
      if LintrPermitted(d) {
        SwitchedCounts(s, i, Asserted);
      } else {
        QuietCounts(s, i, d.(intx := Pending));
      }
    }
    DeviceSettled(s, i, s');
  }

  lemma LintrDeassertInv(s: Fabric, i: nat)
    requires Inv(s) && i < |s.devices| && s.devices[i].hasPin
    ensures Inv(LintrDeassert(s, i)) && LintrDeassert(s, i).devices[i].intx.Idle?
  {
    var d, s' := s.devices[i], LintrDeassert(s, i);
    assert d in s.devices;
    match d.intx {
      case Asserted => SwitchedCounts(s, i, Idle);
      case Pending => QuietCounts(s, i, d.(intx := Idle));
      case Idle =>
    }
    DeviceSettled(s, i, s');
  }

  /** After the update the device is settled, whatever was written before. */
  lemma LintrUpdateInv(s: Fabric, i: nat)
    requires Inv(s) && i < |s.devices|
    ensures Inv(LintrUpdate(s, i)) && Settled(LintrUpdate(s, i).devices[i])
    ensures var d, d' := s.devices[i], LintrUpdate(s, i).devices[i];
            && (d'.intx.Idle? <==> d.intx.Idle?) && !d'.dirty
            && d'.msi == d.msi && d'.msix == d.msix && d'.intxDisabled == d.intxDisabled
  {
    var d, s' := s.devices[i], LintrUpdate(s, i);
    assert d in s.devices;
    if d.intx.Asserted? && !LintrPermitted(d) {
      SwitchedCounts(s, i, Pending);
      QuietCounts(Switched(s, i, Pending), i, s'.devices[i]);
    } else if d.intx.Pending? && LintrPermitted(d) {
      SwitchedCounts(s, i, Asserted);
      QuietCounts(Switched(s, i, Asserted), i, s'.devices[i]);
    } else {
      QuietCounts(s, i, s'.devices[i]);
    }
    DeviceSettled(s, i, s');
  }

  lemma ConfigWriteInv(s: Fabric, i: nat, msi: bool, msix: bool, intxDisabled: bool)
    requires Inv(s) && i < |s.devices|
    ensures Inv(ConfigWrite(s, i, msi, msix, intxDisabled))
  {
    var s' := ConfigWrite(s, i, msi, msix, intxDisabled);
    assert s.devices[i] in s.devices;
    QuietCounts(s, i, s'.devices[i]);
    DeviceSettled(s, i, s');
  }

  lemma PirqWriteInv(s: Fabric, pin: nat, val: bv8)
    requires Inv(s) && 1 <= pin <= PINS
    ensures Inv(PirqWrite(s, pin, val))
  {
    hide ValidIrq, Irq;
    var k, s' := pin - 1, PirqWrite(s, pin, val);
    assert s.pirqs[k].active == Count(s.devices, OnPin(k + 1));
    forall line: nat | line < LINES
      ensures s'.pic[line] == Count(s'.pirqs, RoutedTo(line))
    {
      CountUpdate(s.pirqs, k, s'.pirqs[k], RoutedTo(line));
    }
  }

  // ---------------------------------------------------------------------------
  // Whole runs
  // ---------------------------------------------------------------------------

  datatype Step =
    | Raise(i: nat)
    | Lower(i: nat)
    | Configure(i: nat, msi: bool, msix: bool, intxDisabled: bool)
    | Update(i: nat)
    | Reroute(pin: nat, val: bv8)

  predicate Enabled(s: Fabric, step: Step) {
    match step
    case Raise(i) => i < |s.devices| && s.devices[i].hasPin
    case Lower(i) => i < |s.devices| && s.devices[i].hasPin
    case Configure(i, _, _, _) => i < |s.devices|
    case Update(i) => i < |s.devices|
    case Reroute(pin, _) => 1 <= pin <= PINS
  }

  function Apply(s: Fabric, step: Step): Fabric
    requires Shape(s) && Enabled(s, step)
  {
    match step
    case Raise(i) => LintrAssert(s, i)
    case Lower(i) => LintrDeassert(s, i)
    case Configure(i, msi, msix, intxDisabled) => ConfigWrite(s, i, msi, msix, intxDisabled)
    case Update(i) => LintrUpdate(s, i)
    case Reroute(pin, val) => PirqWrite(s, pin, val)
  }

  lemma StepInv(s: Fabric, step: Step)
    requires Inv(s) && Enabled(s, step)
    ensures Inv(Apply(s, step))
  {
    match step
    case Raise(i) => LintrAssertInv(s, i);
    case Lower(i) => LintrDeassertInv(s, i);
    case Configure(i, msi, msix, intxDisabled) => ConfigWriteInv(s, i, msi, msix, intxDisabled);
    case Update(i) => LintrUpdateInv(s, i);
    case Reroute(pin, val) => PirqWriteInv(s, pin, val);
  }

  /** Nothing is asserted and no write is waiting for its update. */
  ghost predicate Init(s: Fabric) {
    && Shape(s) && (forall d <- s.devices :: d.intx.Idle?) && (forall p <- s.pirqs :: p.active == 0)
    && (forall n <- s.pic :: n == 0) && (forall n <- s.ioapic :: n == 0)
  }

  lemma InitInv(s: Fabric)
    requires Init(s)
    ensures Inv(s)
  {
    forall pin: nat | 1 <= pin <= PINS
      ensures s.pirqs[pin - 1].active == Count(s.devices, OnPin(pin))
    {
      CountPositive(s.devices, OnPin(pin));
      assert s.pirqs[pin - 1] in s.pirqs;
    }
    forall line: nat | line < LINES
      ensures s.pic[line] == Count(s.pirqs, RoutedTo(line))
    {
      CountPositive(s.pirqs, RoutedTo(line));
      assert s.pic[line] in s.pic;
    }
    forall irq: nat | irq < |s.ioapic|
      ensures s.ioapic[irq] == Count(s.devices, OnIoapic(irq))
    {
      CountPositive(s.devices, OnIoapic(irq));
      assert s.ioapic[irq] in s.ioapic;
    }
  }

  ghost predicate Run(s: Fabric, steps: seq<Step>, s': Fabric)
    requires Inv(s)
    decreases |steps|
  {
    if steps == [] then s == s'
    else Enabled(s, steps[0]) && (StepInv(s, steps[0]); Run(Apply(s, steps[0]), steps[1..], s'))
  }

  lemma {:induction false} RunInv(s: Fabric, steps: seq<Step>, s': Fabric)
    requires Inv(s) && Run(s, steps, s')
    ensures Inv(s')
    decreases |steps|
  {
    if steps != [] {
      StepInv(s, steps[0]);
      RunInv(Apply(s, steps[0]), steps[1..], s');
    }
  }

  /** The counts are right after every run, and no device that has been updated since its last
      configuration write is asserted while forbidden or pending while permitted. */
  lemma CountsStayRight(init: Fabric, steps: seq<Step>, s: Fabric)
    requires Init(init) && (InitInv(init); Run(init, steps, s))
    ensures Shape(s) && PinCounts(s) && PicCounts(s) && IoapicCounts(s)
    ensures forall d <- s.devices | !d.dirty :: Settled(d)
  {
    InitInv(init);
    RunInv(init, steps, s);
  }

  /** A PIC line is high exactly if some asserted device sits on a pin validly routed to it. */
  lemma LineHighIff(s: Fabric, line: nat)
    requires Inv(s) && line < LINES
    ensures s.pic[line] > 0 <==>
            exists d <- s.devices :: d.intx.Asserted? && d.pirqPin > 0
                                     && ValidIrq(s.pirqs[d.pirqPin - 1].reg) && Irq(s.pirqs[d.pirqPin - 1].reg) == line
  {
    CountPositive(s.pirqs, RoutedTo(line));
    if s.pic[line] > 0 {
      var p :| p in s.pirqs && RoutedTo(line)(p);
      var k :| 0 <= k < PINS && s.pirqs[k] == p;
      assert s.pirqs[(k + 1) - 1].active == Count(s.devices, OnPin(k + 1));
      CountPositive(s.devices, OnPin(k + 1));
    }
    forall d | d in s.devices && d.intx.Asserted? && d.pirqPin > 0
               && ValidIrq(s.pirqs[d.pirqPin - 1].reg) && Irq(s.pirqs[d.pirqPin - 1].reg) == line
      ensures s.pic[line] > 0
    {
      assert OnPin(d.pirqPin)(d);
      CountPositive(s.devices, OnPin(d.pirqPin));
      assert s.pirqs[d.pirqPin - 1] in s.pirqs && RoutedTo(line)(s.pirqs[d.pirqPin - 1]);
    }
  }

  // ---------------------------------------------------------------------------
  // The state, updated in place
  // ---------------------------------------------------------------------------

  class InterruptFabric {
    var devices: seq<Device>
    var pirqs: seq<Pirq>
    var pic: seq<int>
    var ioapic: seq<int>

    ghost function View(): Fabric
      reads this
    {
      Fabric(devices, pirqs, pic, ioapic)
    }

    constructor (devs: seq<Device>, ioapicPins: nat)
      requires forall d <- devs :: d.pirqPin <= PINS && d.ioapicIrq < ioapicPins && d.intx.Idle?
      ensures Init(View()) && devices == devs
    {
      devices := devs;
      pirqs := seq(PINS, _ => Pirq(PIRQ_DIS, 0));
      pic := seq(LINES, _ => 0);
      ioapic := seq(ioapicPins, _ => 0);
    }

    /** Asserts or deasserts an ISA line and, unless `ioapicIrq` is none, an I/O APIC pin. */
    method IsaMove(line: nat, withIoapic: bool, ioapicIrq: nat, delta: int)
      requires line < |pic| && (withIoapic ==> ioapicIrq < |ioapic|)
      modifies this
      ensures pic == Bump(old(pic), line, delta) && devices == old(devices) && pirqs == old(pirqs)
      ensures ioapic == if withIoapic then Bump(old(ioapic), ioapicIrq, delta) else old(ioapic)
    {
      pic := pic[line := pic[line] + delta];
      if withIoapic {
        ioapic := ioapic[ioapicIrq := ioapic[ioapicIrq] + delta];
      }
    }

    method IrqAssert(pin: nat, ioapicIrq: nat)
      requires Shape(View()) && pin <= PINS && ioapicIrq < |ioapic|
      modifies this
      ensures View() == PinMoved(old(View()), pin, ioapicIrq, 1)
    {
      if pin > 0 {
        var p := pirqs[pin - 1];
        pirqs := pirqs[pin - 1 := p.(active := p.active + 1)];
        if p.active + 1 == 1 && ValidIrq(p.reg) {
          IsaMove(Irq(p.reg), true, ioapicIrq, 1);
          return;
        }
      }
      ioapic := ioapic[ioapicIrq := ioapic[ioapicIrq] + 1];
    }

    method IrqDeassert(pin: nat, ioapicIrq: nat)
      requires Shape(View()) && pin <= PINS && ioapicIrq < |ioapic|
      modifies this
      ensures View() == PinMoved(old(View()), pin, ioapicIrq, -1)
    {
      if pin > 0 {
        var p := pirqs[pin - 1];
        pirqs := pirqs[pin - 1 := p.(active := p.active - 1)];
        if p.active - 1 == 0 && ValidIrq(p.reg) {
          IsaMove(Irq(p.reg), true, ioapicIrq, -1);
          return;
        }
      }
      ioapic := ioapic[ioapicIrq := ioapic[ioapicIrq] - 1];
    }

    method Assert(i: nat)
      requires Inv(View()) && i < |devices| && devices[i].hasPin
      modifies this
      ensures View() == LintrAssert(old(View()), i) && Inv(View())
    {
      LintrAssertInv(View(), i);
      hide PinCounts, PicCounts, IoapicCounts;
      var d := devices[i];
      assert d in devices;
      if d.intx.Idle? {
        if LintrPermitted(d) {
          WithIntxShape(View(), i, d.(intx := Asserted));
          devices := devices[i := d.(intx := Asserted)];
          IrqAssert(d.pirqPin, d.ioapicIrq);
        } else {
          devices := devices[i := d.(intx := Pending)];
        }
      }
    }

    method Deassert(i: nat)
      requires Inv(View()) && i < |devices| && devices[i].hasPin
      modifies this
      ensures View() == LintrDeassert(old(View()), i) && Inv(View())
    {
      LintrDeassertInv(View(), i);
      hide PinCounts, PicCounts, IoapicCounts;
      var d := devices[i];
      assert d in devices;
      if d.intx.Asserted? {
        WithIntxShape(View(), i, d.(intx := Idle));
        devices := devices[i := d.(intx := Idle)];
        IrqDeassert(d.pirqPin, d.ioapicIrq);
      } else if d.intx.Pending? {
        devices := devices[i := d.(intx := Idle)];
      }
    }

    method Refresh(i: nat)
      requires Inv(View()) && i < |devices|
      modifies this
      ensures View() == LintrUpdate(old(View()), i) && Inv(View())
    {
      LintrUpdateInv(View(), i);
      hide PinCounts, PicCounts, IoapicCounts;
      var d := devices[i];
      assert d in devices;
      if d.intx.Asserted? && !LintrPermitted(d) {
        WithIntxShape(View(), i, d.(intx := Pending));
        devices := devices[i := d.(intx := Pending)];
        IrqDeassert(d.pirqPin, d.ioapicIrq);
      } else if d.intx.Pending? && LintrPermitted(d) {
        WithIntxShape(View(), i, d.(intx := Asserted));
        devices := devices[i := d.(intx := Asserted)];
        IrqAssert(d.pirqPin, d.ioapicIrq);
      }
      devices := devices[i := devices[i].(dirty := false)];
    }

    /** A write to the MSI, MSI-X or command register: afterwards the device is neither asserted while
        forbidden nor pending while permitted. */
    method WriteConfig(i: nat, msi: bool, msix: bool, intxDisabled: bool)
      requires Inv(View()) && i < |devices|
      modifies this
      ensures i < |ConfigWrite(old(View()), i, msi, msix, intxDisabled).devices| && Inv(View())
      ensures Shape(ConfigWrite(old(View()), i, msi, msix, intxDisabled))
      ensures View() == LintrUpdate(ConfigWrite(old(View()), i, msi, msix, intxDisabled), i) && Settled(devices[i])
    {
      ConfigWriteInv(View(), i, msi, msix, intxDisabled);
      LintrUpdateInv(ConfigWrite(View(), i, msi, msix, intxDisabled), i);
      hide PinCounts, PicCounts, IoapicCounts, LintrUpdate;
      var d := devices[i];
      devices := devices[i := d.(msi := msi, msix := msix, intxDisabled := intxDisabled, dirty := true)];
      Refresh(i);
    }

    method WritePirq(pin: nat, val: bv8)
      requires Inv(View()) && 1 <= pin <= PINS
      modifies this
      ensures View() == PirqWrite(old(View()), pin, val) && Inv(View())
    {
      PirqWriteInv(View(), pin, val);
      hide PinCounts, PicCounts, IoapicCounts, ValidIrq, Irq;
      var p, reg := pirqs[pin - 1], val & (PIRQ_DIS | PIRQ_IRQ);
      if p.reg != reg {
        if p.active != 0 && ValidIrq(p.reg) {
          IsaMove(Irq(p.reg), false, 0, -1);
        }
        pirqs := pirqs[pin - 1 := p.(reg := reg)];
        if p.active != 0 && ValidIrq(reg) {
          IsaMove(Irq(reg), false, 0, 1);
        }
      }
    }
  }
}
