/** The decoder for instructions that access memory-mapped I/O.

    Each stage takes what has been decoded so far and the bytes that are left, and either fails or
    returns both advanced.  `Encode` is an independent assembler for the supported forms. */
module InstructionDecoder {
  import opened Wrappers
  import opened Bytes

  datatype Mode = Real | Protected | Compatibility | Long

  datatype OpType = Mov | Movsx | Movzx | And | Or | Sub | TwoByte | Push | Cmp | Pop | Movs | Group1 | Stos | BitTest

  /** An entry of the opcode tables: the byte, the operation and the operand flags. */
  datatype Op = Op(byte: Byte, kind: OpType, imm: bool, imm8: bool, moffset: bool, noModrm: bool)

  datatype Register = Gpr(n: nat) | Rip | NoRegister

  datatype Segment = CS | SS | DS | ES | FS | GS

  datatype Flags = Flags(opsizeOverride: bool, addrsizeOverride: bool, repz: bool, repnz: bool, segment: Option<Segment>)

  datatype Rex = Rex(present: bool, w: bool, r: bool, x: bool, b: bool)

  datatype Modrm = Modrm(mod: nat, reg: nat, rm: nat)

  datatype Sib = Sib(ss: nat, index: nat, base: nat)

  datatype Parts = Parts(baseRegister: Register, indexRegister: Register, scale: nat, dispBytes: nat)

  /** What has been decoded; `processed` counts the bytes used. */
  datatype Vie = Vie(
    processed: nat, flags: Flags, rex: Rex, addrsize: nat, opsize: nat, op: Op,
    modrm: Modrm, sib: Sib, parts: Parts, displacement: int, immBytes: nat, immediate: int)

  const NO_OP := Op(0, Mov, false, false, false, false)

  const INIT := Vie(
    0, Flags(false, false, false, false, None), Rex(false, false, false, false, false), 0, 0, NO_OP,
    Modrm(0, 0, 0), Sib(0, 0, 0), Parts(NoRegister, NoRegister, 0, 0), 0, 0, 0)

  /** What a stage returns: the new state and the bytes left. */
  type Result = Option<(Vie, seq<Byte>)>

  // ---------------------------------------------------------------------------
  // The opcode tables
  // ---------------------------------------------------------------------------

  function Plain(b: Byte, kind: OpType): Op { Op(b, kind, false, false, false, false) }

  function WithImm(b: Byte, kind: OpType): Op { Op(b, kind, true, false, false, false) }

  function WithImm8(b: Byte, kind: OpType): Op { Op(b, kind, false, true, false, false) }

  function OneByteOp(b: Byte): Option<Op> {
    match b
    case 0x0F => Some(Plain(b, TwoByte))
    case 0x23 => Some(Plain(b, And))
    case 0x2B => Some(Plain(b, Sub))
    case 0x3B => Some(Plain(b, Cmp))
    case 0x80 => Some(WithImm8(b, Group1))
    case 0x81 => Some(WithImm(b, Group1))
    case 0x83 => Some(WithImm8(b, Group1))
    case 0x88 => Some(Plain(b, Mov))
    case 0x89 => Some(Plain(b, Mov))
    case 0x8A => Some(Plain(b, Mov))
    case 0x8B => Some(Plain(b, Mov))
    case 0x8F => Some(Plain(b, Pop))
    case 0xA1 => Some(Op(b, Mov, false, false, true, true))
    case 0xA3 => Some(Op(b, Mov, false, false, true, true))
    case 0xA4 => Some(Op(b, Movs, false, false, false, true))
    case 0xA5 => Some(Op(b, Movs, false, false, false, true))
    case 0xAA => Some(Op(b, Stos, false, false, false, true))
    case 0xAB => Some(Op(b, Stos, false, false, false, true))
    case 0xC6 => Some(WithImm8(b, Mov))
    case 0xC7 => Some(WithImm(b, Mov))
    case 0xFF => Some(Plain(b, Push))
    case _ => None
  }

  function TwoByteOp(b: Byte): Option<Op> {
    match b
    case 0xB6 => Some(Plain(b, Movzx))
    case 0xB7 => Some(Plain(b, Movzx))
    case 0xBA => Some(WithImm8(b, BitTest))
    case 0xBE => Some(Plain(b, Movsx))
    case _ => None
  }

  // ---------------------------------------------------------------------------
  // Stages
  // ---------------------------------------------------------------------------

  function Advance(v: Vie): Vie { v.(processed := v.processed + 1) }

  function SegmentOf(x: Byte): Option<Segment> {
    match x
    case 0x2E => Some(CS)
    case 0x36 => Some(SS)
    case 0x3E => Some(DS)
    case 0x26 => Some(ES)
    case 0x64 => Some(FS)
    case 0x65 => Some(GS)
    case _ => None
  }

  predicate IsPrefix(x: Byte) {
    x == 0x66 || x == 0x67 || x == 0xF3 || x == 0xF2 || SegmentOf(x).Some?
  }

  function PrefixFlags(f: Flags, x: Byte): Flags {
    match x
    case 0x66 => f.(opsizeOverride := true)
    case 0x67 => f.(addrsizeOverride := true)
    case 0xF3 => f.(repz := true)
    case 0xF2 => f.(repnz := true)
    case _ => f.(segment := SegmentOf(x))
  }

  function Prefixed(v: Vie, x: Byte): Vie { v.(flags := PrefixFlags(v.flags, x)) }

  function LegacyPrefixes(v: Vie, s: seq<Byte>): Result
    decreases |s|
  {
    if s == [] then None
    else if IsPrefix(s[0]) then LegacyPrefixes(Advance(Prefixed(v, s[0])), s[1..])
    else Some((v, s))
  }

  predicate IsRex(mode: Mode, x: Byte) {
    mode == Long && 0x40 <= x <= 0x4F
  }

  function RexOf(x: Byte): Rex {
    Rex(true, x / 8 % 2 == 1, x / 4 % 2 == 1, x / 2 % 2 == 1, x % 2 == 1)
  }

  function AddressSize(mode: Mode, d: bool, over: bool): nat {
    if mode == Long then if over then 4 else 8
    else if d then if over then 2 else 4
    else if over then 4 else 2
  }

  function OperandSize(mode: Mode, d: bool, w: bool, over: bool): nat {
    if mode == Long then if w then 8 else if over then 2 else 4
    else if d then if over then 2 else 4
    else if over then 4 else 2
  }

  function Sized(v: Vie, mode: Mode, d: bool): Vie {
    v.(addrsize := AddressSize(mode, d, v.flags.addrsizeOverride),
       opsize := OperandSize(mode, d, v.rex.w, v.flags.opsizeOverride))
  }

  /** REX and the sizes; some byte is left. */
  function RexAndSizes(v: Vie, s: seq<Byte>, mode: Mode, d: bool): (Vie, seq<Byte>)
    requires s != []
  {
    if IsRex(mode, s[0]) then (Sized(Advance(v.(rex := RexOf(s[0]))), mode, d), s[1..]) else (Sized(v, mode, d), s)
  }

  function DecodePrefixes(v: Vie, s: seq<Byte>, mode: Mode, d: bool): Result {
    match LegacyPrefixes(v, s)
    case None => None
    case Some((v1, s1)) => if s1 == [] then None else Some(RexAndSizes(v1, s1, mode, d))
  }

  function DecodeOpcode(v: Vie, s: seq<Byte>): Result {
    if s == [] || OneByteOp(s[0]).None? then None
    else
      var v1 := Advance(v.(op := OneByteOp(s[0]).value));
      if v1.op.kind != TwoByte then Some((v1, s[1..]))
      else if |s| == 1 || TwoByteOp(s[1]).None? then None
      else Some((Advance(v1.(op := TwoByteOp(s[1]).value)), s[2..]))
  }

  function Bit(b: bool): nat { if b then 8 else 0 }

  /** Registers are extended by REX, except where the encoding has another meaning. */
  function ModrmOf(x: Byte, rex: Rex): Modrm {
    var mod, reg, rm := x / 64, x / 8 % 8, x % 8;
    var special := (mod == 0 && rm == 5) || (mod != 3 && rm == 4);
    Modrm(mod, reg + Bit(rex.r), if special then rm else rm + Bit(rex.b))
  }

  /** Without a base register there is a 32-bit displacement. */
  function DispBytes(mod: nat, noBase: bool): nat {
    if noBase || mod == 2 then 4 else if mod == 1 then 1 else 0
  }

  function ModrmParts(m: Modrm, mode: Mode): Parts {
    var noBase := m.mod == 0 && m.rm == 5;
    Parts(if !noBase then Gpr(m.rm) else if mode == Long then Rip else NoRegister, NoRegister, 0, DispBytes(m.mod, noBase))
  }

  function DecodeModrm(v: Vie, s: seq<Byte>, mode: Mode): Result {
    if v.op.noModrm then Some((v, s))
    else if mode == Real || s == [] then None
    else
      var m := ModrmOf(s[0], v.rex);
      if m.mod == 3 then None
      else Some((Advance(v.(modrm := m, parts := if m.rm == 4 then v.parts else ModrmParts(m, mode))), s[1..]))
  }

  function SibOf(x: Byte, rex: Rex): Sib {
    Sib(x / 64, x / 8 % 8 + Bit(rex.x), x % 8 + Bit(rex.b))
  }

  function Pow2(n: nat): nat { if n == 0 then 1 else if n == 1 then 2 else if n == 2 then 4 else 8 }

  /** The scale makes sense only with an index register. */
  function SibParts(mod: nat, sib: Sib): Parts {
    var noBase := mod == 0 && (sib.base == 5 || sib.base == 13);
    var noIndex := sib.index == 4;
    Parts(if noBase then NoRegister else Gpr(sib.base), if noIndex then NoRegister else Gpr(sib.index),
          if noIndex then 0 else Pow2(sib.ss), DispBytes(mod, noBase))
  }

  function DecodeSib(v: Vie, s: seq<Byte>): Result {
    if v.modrm.mod == 3 || v.modrm.rm != 4 then Some((v, s))
    else if s == [] then None
    else
      var sib := SibOf(s[0], v.rex);
      Some((Advance(v.(sib := sib, parts := SibParts(v.modrm.mod, sib))), s[1..]))
  }

  /** Takes `n` bytes, or fails. */
  function TakeBytes(v: Vie, s: seq<Byte>, n: nat): Option<(Vie, seq<Byte>, seq<Byte>)> {
    if |s| < n then None else Some((v.(processed := v.processed + n), s[..n], s[n..]))
  }

  /** The two's complement number of `n` bytes: 1, 2 or 4. */
  function Signed(x: nat, n: nat): int {
    if n == 1 then if x < 0x80 then x else x - 0x100
    else if n == 2 then if x < 0x8000 then x else x - 0x1_0000
    else if x < 0x8000_0000 then x else x - 0x1_0000_0000
  }

  function DecodeDisplacement(v: Vie, s: seq<Byte>): Result {
    if v.parts.dispBytes == 0 then Some((v, s))
    else
      match TakeBytes(v, s, v.parts.dispBytes)
      case None => None
      case Some((v1, b, s1)) => Some((v1.(displacement := Signed(Value(b), v.parts.dispBytes)), s1))
  }

  function ImmediateBytes(op: Op, opsize: nat): nat {
    if op.imm then if opsize == 4 || opsize == 8 then 4 else 2 else if op.imm8 then 1 else 0
  }

  function DecodeImmediate(v: Vie, s: seq<Byte>): Result {
    var n := ImmediateBytes(v.op, v.opsize);
    if n == 0 then Some((v, s))
    else
      match TakeBytes(v.(immBytes := n), s, n)
      case None => None
      case Some((v1, b, s1)) => Some((v1.(immediate := Signed(Value(b), n)), s1))
  }

  /** A 64-bit offset becomes a signed displacement. */
  function Offset(x: nat): int {
    if x < 0x8000_0000_0000_0000 then x else x - 0x1_0000_0000_0000_0000
  }

  function DecodeMoffset(v: Vie, s: seq<Byte>): Result {
    if !v.op.moffset then Some((v, s))
    else
      match TakeBytes(v, s, v.addrsize)
      case None => None
      case Some((v1, b, s1)) => Some((v1.(displacement := Offset(Value(b))), s1))
  }

  // ---------------------------------------------------------------------------
  // The decoder
  // ---------------------------------------------------------------------------

  type Stage = (Vie, seq<Byte>) -> Result

  function Then(f: Stage, g: Stage): Stage {
    (v, s) =>
      match f(v, s)
      case None => None
      case Some((v1, s1)) => g(v1, s1)
  }

  function PrefixStage(mode: Mode, d: bool): Stage { (v, s) => DecodePrefixes(v, s, mode, d) }

  function OpcodeStage(): Stage { (v, s) => DecodeOpcode(v, s) }

  function ModrmStage(mode: Mode): Stage { (v, s) => DecodeModrm(v, s, mode) }

  function SibStage(): Stage { (v, s) => DecodeSib(v, s) }

  function DisplacementStage(): Stage { (v, s) => DecodeDisplacement(v, s) }

  function ImmediateStage(): Stage { (v, s) => DecodeImmediate(v, s) }

  function MoffsetStage(): Stage { (v, s) => DecodeMoffset(v, s) }

  function HeadStage(mode: Mode, d: bool): Stage { Then(PrefixStage(mode, d), OpcodeStage()) }

  function AddressStage(mode: Mode): Stage { Then(ModrmStage(mode), Then(SibStage(), DisplacementStage())) }

  function TailStage(): Stage { Then(ImmediateStage(), MoffsetStage()) }

  function Pipeline(mode: Mode, d: bool): Stage {
    Then(HeadStage(mode, d), Then(AddressStage(mode), TailStage()))
  }

  /** Decodes `bytes`; the result has used the first `processed` of them. */
  function Decode(bytes: seq<Byte>, mode: Mode, d: bool): Option<Vie> {
    match Pipeline(mode, d)(INIT, bytes)
    case None => None
    case Some((v, _)) => Some(v)
  }

  // ---------------------------------------------------------------------------
  // A decoding depends on the bytes it uses, and needs them all
  // ---------------------------------------------------------------------------

  /** From `v`, the stage uses the first `n` bytes of `s`: whatever follows them is left alone, and
      with fewer of them the stage fails. */
  ghost predicate Uses(f: Stage, v: Vie, s: seq<Byte>, n: nat) {
    && n <= |s| && f(v, s).Some? && f(v, s).value.1 == s[n..]
    && f(v, s).value.0.processed == v.processed + n
    && (forall r :: f(v, s[..n] + r) == Some((f(v, s).value.0, r)))
    && (forall k: nat | k < n :: f(v, s[..k]).None?)
  }

  ghost predicate LocalAt(f: Stage, v: Vie, s: seq<Byte>) {
    f(v, s).Some? ==> exists n: nat :: Uses(f, v, s, n)
  }

  ghost predicate Local(f: Stage) {
    forall v, s :: LocalAt(f, v, s)
  }

  lemma ThenUses(f: Stage, g: Stage, v: Vie, s: seq<Byte>, n1: nat, n2: nat)
    requires Uses(f, v, s, n1)
    requires var (v1, s1) := f(v, s).value; Uses(g, v1, s1, n2)
    ensures Uses(Then(f, g), v, s, n1 + n2)
  {
    var (v1, s1) := f(v, s).value;
    var (v2, s2) := g(v1, s1).value;
    var n := n1 + n2;
    assert s2 == s[n..];
    forall r
      ensures Then(f, g)(v, s[..n] + r) == Some((v2, r))
    {
      assert s[..n] + r == s[..n1] + (s1[..n2] + r);
    }
    forall k: nat | k < n
      ensures Then(f, g)(v, s[..k]).None?
    {
      if k >= n1 {
        assert s[..k] == s[..n1] + s1[..k - n1];
      }
    }
  }

  lemma LocalThen(f: Stage, g: Stage)
    requires Local(f) && Local(g)
    ensures Local(Then(f, g))
  {
    forall v, s
      ensures LocalAt(Then(f, g), v, s)
    {
      if Then(f, g)(v, s).Some? {
        assert LocalAt(f, v, s);
        var n1: nat :| Uses(f, v, s, n1);
        var (v1, s1) := f(v, s).value;
        assert LocalAt(g, v1, s1);
        var n2: nat :| Uses(g, v1, s1, n2);
        ThenUses(f, g, v, s, n1, n2);
      }
    }
  }

  /** A stage that uses no byte at all here. */
  lemma UsesNothing(f: Stage, v: Vie, s: seq<Byte>)
    requires forall r :: f(v, r) == Some((v, r))
    ensures LocalAt(f, v, s)
  {
    assert s[0..] == s;
    assert forall r :: s[..0] + r == r;
    assert Uses(f, v, s, 0);
  }

  lemma ModrmLocal(mode: Mode)
    ensures Local(ModrmStage(mode))
  {
    hide ModrmOf, ModrmParts;
    var f := ModrmStage(mode);
    forall v, s
      ensures LocalAt(f, v, s)
    {
      if v.op.noModrm {
        UsesNothing(f, v, s);
      } else if f(v, s).Some? {
        assert forall r :: (s[..1] + r)[0] == s[0] && (s[..1] + r)[1..] == r;
        assert Uses(f, v, s, 1);
      }
    }
  }

  lemma SibLocal()
    ensures Local(SibStage())
  {
    hide SibOf, SibParts;
    var f := SibStage();
    forall v, s
      ensures LocalAt(f, v, s)
    {
      if v.modrm.mod == 3 || v.modrm.rm != 4 {
        UsesNothing(f, v, s);
      } else if f(v, s).Some? {
        assert forall r :: (s[..1] + r)[0] == s[0] && (s[..1] + r)[1..] == r;
        assert Uses(f, v, s, 1);
      }
    }
  }

  lemma Regained(s: seq<Byte>, n: nat)
    requires n <= |s|
    ensures forall r :: (s[..n] + r)[..n] == s[..n] && (s[..n] + r)[n..] == r
  {
  }

  lemma DisplacementLocal()
    ensures Local(DisplacementStage())
  {
    var f := DisplacementStage();
    forall v, s
      ensures LocalAt(f, v, s)
    {
      var n := v.parts.dispBytes;
      if n == 0 {
        UsesNothing(f, v, s);
      } else if f(v, s).Some? {
        Regained(s, n);
        assert Uses(f, v, s, n);
      }
    }
  }

  lemma ImmediateLocal()
    ensures Local(ImmediateStage())
  {
    var f := ImmediateStage();
    forall v, s
      ensures LocalAt(f, v, s)
    {
      var n := ImmediateBytes(v.op, v.opsize);
      if n == 0 {
        UsesNothing(f, v, s);
      } else if f(v, s).Some? {
        Regained(s, n);
        assert Uses(f, v, s, n);
      }
    }
  }

  lemma MoffsetLocal()
    ensures Local(MoffsetStage())
  {
    var f := MoffsetStage();
    forall v, s
      ensures LocalAt(f, v, s)
    {
      if !v.op.moffset {
        UsesNothing(f, v, s);
      } else if f(v, s).Some? {
        Regained(s, v.addrsize);
        assert Uses(f, v, s, v.addrsize);
      }
    }
  }

  /** The opcode, one or two bytes. */
  lemma OpcodeUses(v: Vie, s: seq<Byte>) returns (n: nat)
    requires DecodeOpcode(v, s).Some?
    ensures Uses(OpcodeStage(), v, s, n) && n > 0
  {
    hide OneByteOp, TwoByteOp;
    var f := OpcodeStage();
    n := if OneByteOp(s[0]).value.kind == TwoByte then 2 else 1;
    Regained(s, n);
    assert forall r :: (s[..n] + r)[0] == s[0];
    assert n == 2 ==> forall r :: (s[..n] + r)[1] == s[1];
    assert forall k: nat | 0 < k < n :: s[..k][0] == s[0];
  }

  /** Sizes and opcode after the legacy prefixes. */
  lemma AfterPrefixesUses(v: Vie, s: seq<Byte>, mode: Mode, d: bool) returns (n: nat)
    requires s != [] && !IsPrefix(s[0]) && HeadStage(mode, d)(v, s).Some?
    ensures Uses(HeadStage(mode, d), v, s, n) && n > 0
  {
    hide IsPrefix, RexOf, DecodeOpcode, AddressSize, OperandSize;
    var f, rex := HeadStage(mode, d), IsRex(mode, s[0]);
    var (v1, s1) := RexAndSizes(v, s, mode, d);
    var m := OpcodeUses(v1, s1);
    var skip := if rex then 1 else 0;
    n := m + skip;
    assert s1 == s[skip..];
    forall r
      ensures f(v, s[..n] + r) == Some((f(v, s).value.0, r))
    {
      assert (s[..n] + r)[0] == s[0] && (s[..n] + r)[skip..] == s1[..m] + r;
    }
    forall k: nat | k < n
      ensures f(v, s[..k]).None?
    {
      if k >= 1 {
        assert s[..k][0] == s[0] && s[..k][skip..] == s1[..k - skip];
      }
    }
  }

  lemma HeadSkips(v: Vie, s: seq<Byte>, mode: Mode, d: bool)
    ensures s == [] ==> HeadStage(mode, d)(v, s).None?
    ensures s != [] && IsPrefix(s[0]) ==>
              HeadStage(mode, d)(v, s) == HeadStage(mode, d)(Advance(Prefixed(v, s[0])), s[1..])
  {
  }

  lemma {:induction false} HeadUses(v: Vie, s: seq<Byte>, mode: Mode, d: bool) returns (n: nat)
    requires HeadStage(mode, d)(v, s).Some?
    ensures Uses(HeadStage(mode, d), v, s, n) && n > 0
    decreases |s|
  {
    hide HeadStage, PrefixFlags, IsPrefix;
    HeadSkips(v, s, mode, d);
    if !IsPrefix(s[0]) {
      n := AfterPrefixesUses(v, s, mode, d);
      return;
    }
    var f, v1, s1 := HeadStage(mode, d), Advance(Prefixed(v, s[0])), s[1..];
    var m := HeadUses(v1, s1, mode, d);
    n := m + 1;
    forall r
      ensures f(v, s[..n] + r) == Some((f(v, s).value.0, r))
    {
      HeadSkips(v, s[..n] + r, mode, d);
      assert (s[..n] + r)[0] == s[0] && (s[..n] + r)[1..] == s1[..m] + r;
    }
    forall k: nat | k < n
      ensures f(v, s[..k]).None?
    {
      HeadSkips(v, s[..k], mode, d);
      if k >= 1 {
        assert s[..k][0] == s[0] && s[..k][1..] == s1[..k - 1];
      }
    }
  }

  lemma PipelineLocal(mode: Mode, d: bool)
    ensures Local(Pipeline(mode, d))
  {
    var head := HeadStage(mode, d);
    forall v, s
      ensures LocalAt(head, v, s)
    {
      if head(v, s).Some? {
        var n := HeadUses(v, s, mode, d);
      }
    }
    ModrmLocal(mode);
    SibLocal();
    DisplacementLocal();
    LocalThen(SibStage(), DisplacementStage());
    LocalThen(ModrmStage(mode), Then(SibStage(), DisplacementStage()));
    ImmediateLocal();
    MoffsetLocal();
    LocalThen(ImmediateStage(), MoffsetStage());
    LocalThen(AddressStage(mode), TailStage());
    LocalThen(head, Then(AddressStage(mode), TailStage()));
  }

  /** Whatever decodes uses a prefix of the bytes: others behind it change nothing, and every strict
      truncation of it fails. */
  lemma DecodeIsLocal(bytes: seq<Byte>, mode: Mode, d: bool)
    requires Decode(bytes, mode, d).Some?
    ensures
      var v := Decode(bytes, mode, d).value;
      && v.processed <= |bytes|
      && (forall rest :: Decode(bytes[..v.processed] + rest, mode, d) == Some(v))
      && (forall k: nat | k < v.processed :: Decode(bytes[..k], mode, d).None?)
  {
    PipelineLocal(mode, d);
    var f := Pipeline(mode, d);
    assert LocalAt(f, INIT, bytes);
    var n: nat :| Uses(f, INIT, bytes, n);
  }

  // ---------------------------------------------------------------------------
  // An assembler for the supported forms
  // ---------------------------------------------------------------------------

  datatype Disp = NoDisp | Disp8(d: int) | Disp32(d: int)

  /** A memory operand: a base register, an absolute (in 64-bit mode RIP-relative) address, or base
      and scaled index; `ss` is the logarithm of the scale. */
  datatype Address =
    | Based(base: nat, disp: Disp)
    | Absolute(d: int)
    | Scaled(sbase: Option<nat>, sindex: Option<nat>, ss: nat, sdisp: Disp)

  datatype Opcode = One(b: Byte) | Two(b: Byte)

  /** `rex` asks for a REX prefix even where none is needed. */
  datatype Insn = Insn(
    prefixes: seq<Byte>, rex: bool, w: bool, opcode: Opcode, reg: nat, address: Address, imm: int, moffset: nat)

  function OpOf(c: Opcode): Option<Op> {
    match c
    case One(b) => if OneByteOp(b).Some? && OneByteOp(b).value.kind == TwoByte then None else OneByteOp(b)
    case Two(b) => TwoByteOp(b)
  }

  predicate InRange(x: int, n: nat) {
    if n == 1 then -0x80 <= x < 0x80
    else if n == 2 then -0x8000 <= x < 0x8000
    else -0x8000_0000 <= x < 0x8000_0000
  }

  predicate DispOk(disp: Disp) {
    (disp.Disp8? ==> InRange(disp.d, 1)) && (disp.Disp32? ==> InRange(disp.d, 4))
  }

  /** Registers 4 and 12 need the scaled form, 5 and 13 a displacement; register 4 is no index. */
  predicate AddressOk(a: Address) {
    match a
    case Based(base, disp) => base < 16 && base % 8 != 4 && (base % 8 == 5 ==> !disp.NoDisp?) && DispOk(disp)
    case Absolute(d) => InRange(d, 4)
    case Scaled(sbase, sindex, ss, sdisp) =>
      && ss < 4 && DispOk(sdisp)
      && (if sbase.Some? then sbase.value < 16 && (sbase.value % 8 == 5 ==> !sdisp.NoDisp?) else sdisp.Disp32?)
      && (sindex.Some? ==> sindex.value < 16 && sindex.value != 4) && (sindex.None? ==> ss == 0)
  }

  function BaseOf(a: Address): nat {
    match a
    case Based(base, _) => base
    case Absolute(_) => 5
    case Scaled(sbase, _, _, _) => if sbase.Some? then sbase.value else 5
  }

  function IndexOf(a: Address): nat {
    if a.Scaled? && a.sindex.Some? then a.sindex.value else 4
  }

  predicate HasModrm(i: Insn)
    requires OpOf(i.opcode).Some?
  {
    !OpOf(i.opcode).value.noModrm
  }

  function RexByte(w: bool, r: bool, x: bool, b: bool): (z: Byte)
    ensures 0x40 <= z <= 0x4F
  {
    0x40 + Bit(w) + Bit(r) / 2 + Bit(x) / 4 + Bit(b) / 8
  }

  /** The extension bits of the registers: reg, index, base. */
  function Extensions(i: Insn): (bool, bool, bool)
    requires OpOf(i.opcode).Some?
  {
    if HasModrm(i) then (i.reg >= 8, IndexOf(i.address) >= 8, BaseOf(i.address) >= 8) else (false, false, false)
  }

  predicate NeedsRex(i: Insn)
    requires OpOf(i.opcode).Some?
  {
    var (r, x, b) := Extensions(i);
    i.rex || i.w || r || x || b
  }

  predicate InsnOk(i: Insn, mode: Mode, d: bool) {
    && (forall x <- i.prefixes :: IsPrefix(x))
    && OpOf(i.opcode).Some?
    && (HasModrm(i) ==> mode != Real && i.reg < 16 && AddressOk(i.address))
    && (NeedsRex(i) ==> mode == Long)
    && var op := OpOf(i.opcode).value;
       var n := ImmediateBytes(op, OperandSize(mode, d, i.w, 0x66 in i.prefixes));
       && (n > 0 ==> InRange(i.imm, n))
       && (op.moffset ==> i.moffset < MoffsetLimit(AddressSize(mode, d, 0x67 in i.prefixes)))
  }

  function MoffsetLimit(n: nat): nat {
    if n == 2 then 0x1_0000 else if n == 4 then 0x1_0000_0000 else 0x1_0000_0000_0000_0000
  }

  function RexBytes(i: Insn): seq<Byte>
    requires OpOf(i.opcode).Some?
  {
    var (r, x, b) := Extensions(i);
    if NeedsRex(i) then [RexByte(i.w, r, x, b)] else []
  }

  function OpcodeBytes(c: Opcode): seq<Byte> {
    match c
    case One(b) => [b]
    case Two(b) => [0x0F, b]
  }

  function ModOf(disp: Disp): nat {
    match disp
    case NoDisp => 0
    case Disp8(_) => 1
    case Disp32(_) => 2
  }

  /** `n` bytes of a two's complement number. */
  function SignedBytes(x: int, n: nat): seq<Byte> {
    if n == 1 then LittleEndian(x % 0x100, 1)
    else if n == 2 then LittleEndian(x % 0x1_0000, 2)
    else LittleEndian(x % 0x1_0000_0000, 4)
  }

  function DispOf(disp: Disp): seq<Byte> {
    match disp
    case NoDisp => []
    case Disp8(d) => SignedBytes(d, 1)
    case Disp32(d) => SignedBytes(d, 4)
  }

  function ModrmByte(mod: nat, reg: nat, rm: nat): Byte
    requires mod < 4 && reg < 16 && rm < 8
  {
    64 * mod + 8 * (reg % 8) + rm
  }

  function AddressBytes(reg: nat, a: Address): seq<Byte>
    requires reg < 16 && AddressOk(a)
  {
    match a
    case Based(base, disp) => [ModrmByte(ModOf(disp), reg, base % 8)] + DispOf(disp)
    case Absolute(d) => [ModrmByte(0, reg, 5)] + SignedBytes(d, 4)
    case Scaled(sbase, _, ss, sdisp) =>
      [ModrmByte(if sbase.Some? then ModOf(sdisp) else 0, reg, 4),
       ModrmByte(ss, IndexOf(a), BaseOf(a) % 8)] + DispOf(sdisp)
  }

  function AddressPart(i: Insn): seq<Byte>
    requires OpOf(i.opcode).Some? && (HasModrm(i) ==> i.reg < 16 && AddressOk(i.address))
  {
    if HasModrm(i) then AddressBytes(i.reg, i.address) else []
  }

  function ImmediatePart(op: Op, opsize: nat, imm: int): seq<Byte> {
    var n := ImmediateBytes(op, opsize);
    if n == 0 then [] else SignedBytes(imm, n)
  }

  function MoffsetPart(op: Op, addrsize: nat, moffset: nat): seq<Byte> {
    if op.moffset then LittleEndian(moffset, addrsize) else []
  }

  function Encode(i: Insn, mode: Mode, d: bool): seq<Byte>
    requires InsnOk(i, mode, d)
  {
    var op := OpOf(i.opcode).value;
    i.prefixes + RexBytes(i) + OpcodeBytes(i.opcode) + AddressPart(i)
    + ImmediatePart(op, OperandSize(mode, d, i.w, 0x66 in i.prefixes), i.imm)
    + MoffsetPart(op, AddressSize(mode, d, 0x67 in i.prefixes), i.moffset)
  }

  // ---------------------------------------------------------------------------
  // Decoding undoes encoding: numbers
  // ---------------------------------------------------------------------------

  lemma SignedBytesBack(x: int, n: nat)
    requires (n == 1 || n == 2 || n == 4) && InRange(x, n)
    ensures |SignedBytes(x, n)| == n && Signed(Value(SignedBytes(x, n)), n) == x
  {
    Bases();
    hide Value, LittleEndian, Base;
    Complement(x, n);
    if n == 1 {
      ValueOfBytes(x % 0x100, 1, 0x100);
    } else if n == 2 {
      ValueOfBytes(x % 0x1_0000, 2, 0x1_0000);
    } else {
      ValueOfBytes(x % 0x1_0000_0000, 4, 0x1_0000_0000);
    }
  }

  lemma Complement(x: int, n: nat)
    requires (n == 1 || n == 2 || n == 4) && InRange(x, n)
    ensures Signed(x % (if n == 1 then 0x100 else if n == 2 then 0x1_0000 else 0x1_0000_0000), n) == x
  {
  }

  lemma MoffsetBack(x: nat, n: nat)
    requires (n == 2 || n == 4 || n == 8) && x < MoffsetLimit(n)
    ensures Value(LittleEndian(x, n)) == x
  {
    Bases();
    hide Value, LittleEndian, Base;
    ValueOfBytes(x, n, MoffsetLimit(n));
  }

  lemma RexBack(w: bool, r: bool, x: bool, b: bool)
    ensures RexOf(RexByte(w, r, x, b)) == Rex(true, w, r, x, b)
  {
    var z := RexByte(w, r, x, b);
    assert z / 8 % 2 == (if w then 1 else 0) && z / 4 % 2 == (if r then 1 else 0);
    assert z / 2 % 2 == (if x then 1 else 0) && z % 2 == (if b then 1 else 0);
  }

  lemma ModrmBack(mod: nat, reg: nat, rm: nat)
    requires mod < 4 && reg < 16 && rm < 8
    ensures var x := ModrmByte(mod, reg, rm); x / 64 == mod && x / 8 % 8 == reg % 8 && x % 8 == rm
  {
    Unpacked(mod, reg % 8, rm);
  }

  lemma Unpacked(a: nat, b: nat, c: nat)
    requires b < 8 && c < 8
    ensures var x := 64 * a + 8 * b + c; x / 64 == a && x / 8 % 8 == b && x % 8 == c
  {
    var y := 8 * a + b;
    assert 64 * a + 8 * b + c == 8 * y + c;
    assert (8 * y + c) / 8 == y && (8 * y + c) % 8 == c;
    assert y / 8 == a && y % 8 == b;
  }

  // ---------------------------------------------------------------------------
  // Decoding undoes encoding: prefixes and opcode
  // ---------------------------------------------------------------------------

  function LastSegment(start: Option<Segment>, p: seq<Byte>): Option<Segment> {
    if p == [] then start
    else if SegmentOf(p[|p| - 1]).Some? then SegmentOf(p[|p| - 1])
    else LastSegment(start, p[..|p| - 1])
  }

  /** What legacy prefixes set. */
  function FlagsOf(f: Flags, p: seq<Byte>): Flags {
    Flags(f.opsizeOverride || 0x66 in p, f.addrsizeOverride || 0x67 in p, f.repz || 0xF3 in p, f.repnz || 0xF2 in p,
          LastSegment(f.segment, p))
  }

  function WithPrefixes(v: Vie, p: seq<Byte>): Vie {
    v.(processed := v.processed + |p|, flags := FlagsOf(v.flags, p))
  }

  lemma {:induction false} LastSegmentStep(start: Option<Segment>, p: seq<Byte>)
    requires p != []
    ensures LastSegment(start, p) == LastSegment(LastSegment(start, p[..1]), p[1..])
  {
    if |p| == 1 {
      assert p[..1] == p && p[1..] == [];
    } else {
      var init := p[..|p| - 1];
      assert init[..1] == p[..1] && init[1..] == p[1..][..|p| - 2];
      assert p[1..][|p| - 2] == p[|p| - 1];
      LastSegmentStep(start, init);
    }
  }

  lemma FlagsStep(f: Flags, p: seq<Byte>)
    requires p != [] && IsPrefix(p[0])
    ensures FlagsOf(PrefixFlags(f, p[0]), p[1..]) == FlagsOf(f, p)
  {
    LastSegmentStep(f.segment, p);
    assert p[..1] == [p[0]];
    assert LastSegment(f.segment, p[..1]) == if SegmentOf(p[0]).Some? then SegmentOf(p[0]) else f.segment;
    hide LastSegment;
    assert p == [p[0]] + p[1..];
    assert forall x :: x in p <==> x == p[0] || x in p[1..];
  }

  lemma {:induction false} PrefixesBack(v: Vie, p: seq<Byte>, s: seq<Byte>)
    requires (forall x <- p :: IsPrefix(x)) && s != [] && !IsPrefix(s[0])
    ensures LegacyPrefixes(v, p + s) == Some((WithPrefixes(v, p), s))
    decreases |p|
  {
    if p == [] {
      assert p + s == s;
    } else {
      assert (p + s)[1..] == p[1..] + s;
      assert p[0] in p;
      FlagsStep(v.flags, p);
      hide FlagsOf, PrefixFlags, IsPrefix;
      PrefixesBack(Advance(Prefixed(v, p[0])), p[1..], s);
    }
  }

  lemma OpcodeIsNoPrefix(b: Byte)
    requires OneByteOp(b).Some?
    ensures !IsPrefix(b) && !(0x40 <= b <= 0x4F)
  {
  }

  lemma OpcodeBack(v: Vie, c: Opcode, rest: seq<Byte>)
    requires OpOf(c).Some?
    ensures DecodeOpcode(v, OpcodeBytes(c) + rest) ==
            Some((v.(processed := v.processed + |OpcodeBytes(c)|, op := OpOf(c).value), rest))
  {
    var s := OpcodeBytes(c) + rest;
    assert s[0] == OpcodeBytes(c)[0];
    if c.One? {
      assert s[1..] == rest;
    } else {
      assert s[1] == c.b && s[2..] == rest;
      assert OneByteOp(0x0F).value.kind == TwoByte;
    }
  }

  function RexFor(i: Insn): Rex
    requires OpOf(i.opcode).Some?
  {
    var (r, x, b) := Extensions(i);
    Rex(NeedsRex(i), i.w, r, x, b)
  }

  /** The state after prefixes and opcode of `i`. */
  function HeadOf(i: Insn, mode: Mode, d: bool): Vie
    requires OpOf(i.opcode).Some?
  {
    var over, addr := 0x66 in i.prefixes, 0x67 in i.prefixes;
    INIT.(
      processed := |i.prefixes| + |RexBytes(i)| + |OpcodeBytes(i.opcode)|, flags := FlagsOf(INIT.flags, i.prefixes),
      rex := RexFor(i), addrsize := AddressSize(mode, d, addr), opsize := OperandSize(mode, d, i.w, over),
      op := OpOf(i.opcode).value)
  }

  lemma RexMeans(i: Insn)
    requires OpOf(i.opcode).Some?
    ensures if NeedsRex(i) then |RexBytes(i)| == 1 && 0x40 <= RexBytes(i)[0] <= 0x4F && RexOf(RexBytes(i)[0]) == RexFor(i)
            else RexBytes(i) == [] && RexFor(i) == INIT.rex
  {
    var (r, x, b) := Extensions(i);
    RexBack(i.w, r, x, b);
    hide OpOf, Extensions, RexByte, RexOf;
  }

  lemma RexBytesBack(v: Vie, i: Insn, s: seq<Byte>, mode: Mode, d: bool)
    requires OpOf(i.opcode).Some? && (NeedsRex(i) ==> mode == Long) && s != [] && !(0x40 <= s[0] <= 0x4F)
    requires v.rex == INIT.rex
    ensures RexAndSizes(v, RexBytes(i) + s, mode, d) ==
            (Sized(v.(processed := v.processed + |RexBytes(i)|, rex := RexFor(i)), mode, d), s)
  {
    RexMeans(i);
    hide OpOf, Sized, RexBytes, RexOf, RexFor, NeedsRex;
    var all := RexBytes(i) + s;
    if NeedsRex(i) {
      assert all[0] == RexBytes(i)[0] && all[1..] == s;
    } else {
      assert all == s;
    }
  }

  lemma FirstIsNoPrefix(i: Insn, ops: seq<Byte>)
    requires OpOf(i.opcode).Some? && OpcodeBytes(i.opcode) <= ops
    ensures var s := RexBytes(i) + ops; s != [] && !IsPrefix(s[0])
    ensures ops != [] && !(0x40 <= ops[0] <= 0x4F)
  {
    var b := OpcodeBytes(i.opcode)[0];
    assert OneByteOp(0x0F).Some?;
    OpcodeIsNoPrefix(b);
    assert ops[0] == b;
    hide OneByteOp, TwoByteOp, NeedsRex, Extensions;
    RexIsNoPrefix(i);
    assert RexBytes(i) != [] ==> (RexBytes(i) + ops)[0] == RexBytes(i)[0];
    assert RexBytes(i) == [] ==> RexBytes(i) + ops == ops;
  }

  lemma RexIsNoPrefix(i: Insn)
    requires OpOf(i.opcode).Some?
    ensures RexBytes(i) != [] ==> !IsPrefix(RexBytes(i)[0])
  {
    hide OpOf, NeedsRex, Extensions, RexByte;
  }

  lemma PrefixStageBack(i: Insn, mode: Mode, d: bool, ops: seq<Byte>)
    requires OpOf(i.opcode).Some? && (forall x <- i.prefixes :: IsPrefix(x)) && (NeedsRex(i) ==> mode == Long)
    requires OpcodeBytes(i.opcode) <= ops
    ensures DecodePrefixes(INIT, i.prefixes + (RexBytes(i) + ops), mode, d) ==
            Some((Sized(INIT.(processed := |i.prefixes| + |RexBytes(i)|, flags := FlagsOf(INIT.flags, i.prefixes),
                              rex := RexFor(i)), mode, d), ops))
  {
    hide IsPrefix, RexBytes, OpcodeBytes, LegacyPrefixes, RexAndSizes, NeedsRex, RexFor, OpOf, FlagsOf, Sized;
    FirstIsNoPrefix(i, ops);
    PrefixesBack(INIT, i.prefixes, RexBytes(i) + ops);
    RexBytesBack(WithPrefixes(INIT, i.prefixes), i, ops, mode, d);
  }

  lemma HeadBack(i: Insn, mode: Mode, d: bool, rest: seq<Byte>)
    requires OpOf(i.opcode).Some? && (forall x <- i.prefixes :: IsPrefix(x)) && (NeedsRex(i) ==> mode == Long)
    ensures HeadStage(mode, d)(INIT, i.prefixes + (RexBytes(i) + (OpcodeBytes(i.opcode) + rest))) ==
            Some((HeadOf(i, mode, d), rest))
  {
    hide IsPrefix, RexBytes, OpcodeBytes, DecodeOpcode, DecodePrefixes, NeedsRex, RexFor, OpOf, FlagsOf, AddressSize,
      OperandSize;
    var ops := OpcodeBytes(i.opcode) + rest;
    PrefixStageBack(i, mode, d, ops);
    var v1 := DecodePrefixes(INIT, i.prefixes + (RexBytes(i) + ops), mode, d).value.0;
    OpcodeBack(v1, i.opcode, rest);
    FlagsMean(i.prefixes);
    RexForW(i);
  }

  lemma RexForW(i: Insn)
    requires OpOf(i.opcode).Some?
    ensures RexFor(i).w == i.w
  {
  }

  lemma FlagsMean(p: seq<Byte>)
    ensures FlagsOf(INIT.flags, p).opsizeOverride == (0x66 in p) && FlagsOf(INIT.flags, p).addrsizeOverride == (0x67 in p)
  {
  }

  // ---------------------------------------------------------------------------
  // Decoding undoes encoding: the memory operand
  // ---------------------------------------------------------------------------

  /** The registers, scale and displacement that an address stands for. */
  function PartsOf(a: Address, mode: Mode): Parts {
    match a
    case Based(base, disp) => Parts(Gpr(base), NoRegister, 0, |DispOf(disp)|)
    case Absolute(_) => Parts(if mode == Long then Rip else NoRegister, NoRegister, 0, 4)
    case Scaled(sbase, sindex, ss, sdisp) =>
      Parts(if sbase.Some? then Gpr(sbase.value) else NoRegister,
            if sindex.Some? then Gpr(sindex.value) else NoRegister,
            if sindex.Some? then Pow2(ss) else 0, |DispOf(sdisp)|)
  }

  function DispOfAddress(a: Address): int {
    match a
    case Based(_, disp) => if disp.NoDisp? then 0 else disp.d
    case Absolute(d) => d
    case Scaled(_, _, _, sdisp) => if sdisp.NoDisp? then 0 else sdisp.d
  }

  function DispBytesOf(a: Address): seq<Byte> {
    match a
    case Based(_, disp) => DispOf(disp)
    case Absolute(d) => SignedBytes(d, 4)
    case Scaled(_, _, _, sdisp) => DispOf(sdisp)
  }

  function ModOfAddress(a: Address): nat {
    match a
    case Based(_, disp) => ModOf(disp)
    case Absolute(_) => 0
    case Scaled(sbase, _, _, sdisp) => if sbase.Some? then ModOf(sdisp) else 0
  }

  /** ModRM and SIB bytes give back registers and sizes. */
  lemma ModrmPartsBack(reg: nat, base: nat, mod: nat, rex: Rex, mode: Mode)
    requires reg < 16 && base < 16 && mod < 3 && base % 8 != 4 && (mod == 0 ==> base % 8 != 5)
    requires rex.r == (reg >= 8) && rex.b == (base >= 8)
    ensures var m := ModrmOf(ModrmByte(mod, reg, base % 8), rex);
            && m == Modrm(mod, reg, base)
            && ModrmParts(m, mode) == Parts(Gpr(base), NoRegister, 0, DispBytes(mod, false))
  {
    ModrmBack(mod, reg, base % 8);
    hide ModrmByte;
    SplitRegister(reg);
    SplitRegister(base);
  }

  lemma SplitRegister(n: nat)
    requires n < 16
    ensures n % 8 + Bit(n >= 8) == n
  {
  }

  lemma AbsolutePartsBack(reg: nat, rex: Rex, mode: Mode)
    requires reg < 16 && rex.r == (reg >= 8)
    ensures var m := ModrmOf(ModrmByte(0, reg, 5), rex);
            && m == Modrm(0, reg, 5)
            && ModrmParts(m, mode) == Parts(if mode == Long then Rip else NoRegister, NoRegister, 0, 4)
  {
    ModrmBack(0, reg, 5);
    hide ModrmByte;
    SplitRegister(reg);
  }

  lemma ScaledModrmBack(reg: nat, mod: nat, rex: Rex)
    requires reg < 16 && mod < 3 && rex.r == (reg >= 8)
    ensures ModrmOf(ModrmByte(mod, reg, 4), rex) == Modrm(mod, reg, 4)
  {
    ModrmBack(mod, reg, 4);
    hide ModrmByte;
    SplitRegister(reg);
  }

  lemma SibPartsBack(a: Address, rex: Rex, mode: Mode)
    requires a.Scaled? && AddressOk(a) && rex.x == (IndexOf(a) >= 8) && rex.b == (BaseOf(a) >= 8)
    ensures SibParts(ModOfAddress(a), SibOf(ModrmByte(a.ss, IndexOf(a), BaseOf(a) % 8), rex)) == PartsOf(a, mode)
  {
    ModrmBack(a.ss, IndexOf(a), BaseOf(a) % 8);
    hide ModrmByte;
    SplitRegister(IndexOf(a));
    SplitRegister(BaseOf(a));
    DispLength(a.sdisp);
  }

  lemma DispLength(disp: Disp)
    ensures |DispOf(disp)| == (match disp case NoDisp => 0 case Disp8(_) => 1 case Disp32(_) => 4)
  {
  }

  lemma DisplacementBack(v: Vie, disp: seq<Byte>, d: int, rest: seq<Byte>)
    requires v.parts.dispBytes == |disp|
    requires disp == [] ==> v.displacement == d
    requires disp != [] ==> (|disp| == 1 || |disp| == 4) && InRange(d, |disp|) && disp == SignedBytes(d, |disp|)
    ensures DecodeDisplacement(v, disp + rest) ==
            Some((v.(processed := v.processed + |disp|, displacement := d), rest))
  {
    var s := disp + rest;
    if disp == [] {
      assert s == rest;
    } else {
      assert s[..|disp|] == disp && s[|disp|..] == rest;
      SignedBytesBack(d, |disp|);
    }
  }

  /** `v'` is `v` with the operand found and `n` more bytes used. */
  ghost predicate Located(v: Vie, v': Vie, n: nat, reg: nat, parts: Parts, displacement: int) {
    && v'.processed == v.processed + n && v'.modrm.reg == reg && v'.parts == parts && v'.displacement == displacement
    && v'.flags == v.flags && v'.rex == v.rex && v'.addrsize == v.addrsize && v'.opsize == v.opsize && v'.op == v.op
    && v'.immediate == v.immediate
  }

  lemma ModrmStageBack(v: Vie, x: Byte, rest: seq<Byte>, mode: Mode)
    requires !v.op.noModrm && mode != Real && ModrmOf(x, v.rex).mod != 3
    ensures
      var m := ModrmOf(x, v.rex);
      DecodeModrm(v, [x] + rest, mode) ==
      Some((v.(processed := v.processed + 1, modrm := m, parts := if m.rm == 4 then v.parts else ModrmParts(m, mode)), rest))
  {
    hide ModrmOf, ModrmParts;
    var s := [x] + rest;
    assert s[0] == x && s[1..] == rest;
  }

  lemma SibStageBack(v: Vie, x: Byte, rest: seq<Byte>)
    requires v.modrm.mod != 3 && v.modrm.rm == 4
    ensures
      var sib := SibOf(x, v.rex);
      DecodeSib(v, [x] + rest) ==
      Some((v.(processed := v.processed + 1, sib := sib, parts := SibParts(v.modrm.mod, sib)), rest))
  {
    hide SibOf, SibParts;
    var s := [x] + rest;
    assert s[0] == x && s[1..] == rest;
  }

  lemma DispFits(a: Address, mode: Mode)
    requires AddressOk(a)
    ensures
      var bytes, d := DispBytesOf(a), DispOfAddress(a);
      && PartsOf(a, mode).dispBytes == |bytes| && (bytes == [] ==> d == 0)
      && (bytes != [] ==> (|bytes| == 1 || |bytes| == 4) && InRange(d, |bytes|) && bytes == SignedBytes(d, |bytes|))
  {
    hide LittleEndian;
  }

  /** Operands without a SIB byte. */
  lemma PlainBack(v: Vie, reg: nat, a: Address, x: Byte, m: Modrm, mode: Mode, rest: seq<Byte>) returns (v': Vie)
    requires AddressOk(a) && !v.op.noModrm && mode != Real && v.displacement == 0
    requires ModrmOf(x, v.rex) == m && m.mod != 3 && m.rm != 4 && m.reg == reg && ModrmParts(m, mode) == PartsOf(a, mode)
    ensures AddressStage(mode)(v, [x] + (DispBytesOf(a) + rest)) == Some((v', rest))
    ensures Located(v, v', 1 + |DispBytesOf(a)|, reg, PartsOf(a, mode), DispOfAddress(a))
  {
    hide AddressOk, ModrmOf, ModrmParts, PartsOf, DispBytesOf, DispOfAddress, DecodeModrm, DecodeDisplacement, SignedBytes;
    var s1 := DispBytesOf(a) + rest;
    ModrmStageBack(v, x, s1, mode);
    var v1 := DecodeModrm(v, [x] + s1, mode).value.0;
    DispFits(a, mode);
    DisplacementBack(v1, DispBytesOf(a), DispOfAddress(a), rest);
    v' := DecodeDisplacement(v1, s1).value.0;
  }

  lemma ScaledBack(v: Vie, reg: nat, a: Address, mode: Mode, rest: seq<Byte>) returns (v': Vie)
    requires a.Scaled? && AddressOk(a) && reg < 16 && !v.op.noModrm && mode != Real && v.displacement == 0
    requires v.rex.r == (reg >= 8) && v.rex.x == (IndexOf(a) >= 8) && v.rex.b == (BaseOf(a) >= 8)
    ensures
      var x, y := ModrmByte(ModOfAddress(a), reg, 4), ModrmByte(a.ss, IndexOf(a), BaseOf(a) % 8);
      && AddressStage(mode)(v, [x] + ([y] + (DispBytesOf(a) + rest))) == Some((v', rest))
      && Located(v, v', 2 + |DispBytesOf(a)|, reg, PartsOf(a, mode), DispOfAddress(a))
  {
    var mod := ModOfAddress(a);
    var x, y := ModrmByte(mod, reg, 4), ModrmByte(a.ss, IndexOf(a), BaseOf(a) % 8);
    ScaledModrmBack(reg, mod, v.rex);
    SibPartsBack(a, v.rex, mode);
    DispFits(a, mode);
    hide AddressOk, ModrmOf, ModrmByte, SibOf, SibParts, PartsOf, DispBytesOf, DispOfAddress, ModOfAddress, IndexOf, BaseOf,
      DecodeModrm, DecodeSib, DecodeDisplacement, SignedBytes;
    var s2 := DispBytesOf(a) + rest;
    var s1 := [y] + s2;
    ModrmStageBack(v, x, s1, mode);
    var v1 := DecodeModrm(v, [x] + s1, mode).value.0;
    SibStageBack(v1, y, s2);
    var v2 := DecodeSib(v1, s1).value.0;
    DisplacementBack(v2, DispBytesOf(a), DispOfAddress(a), rest);
    v' := DecodeDisplacement(v2, s2).value.0;
  }

  lemma AddressBack(v: Vie, reg: nat, a: Address, mode: Mode, rest: seq<Byte>) returns (v': Vie)
    requires AddressOk(a) && reg < 16 && !v.op.noModrm && mode != Real && v.displacement == 0
    requires v.rex.r == (reg >= 8) && v.rex.x == (IndexOf(a) >= 8) && v.rex.b == (BaseOf(a) >= 8)
    ensures AddressStage(mode)(v, AddressBytes(reg, a) + rest) == Some((v', rest))
    ensures Located(v, v', |AddressBytes(reg, a)|, reg, PartsOf(a, mode), DispOfAddress(a))
  {
    hide AddressStage, ModrmByte, PartsOf, DispOfAddress, Located, ModrmOf, ModrmParts;
    match a {
      case Based(base, disp) =>
        var x := ModrmByte(ModOf(disp), reg, base % 8);
        BasedParts(reg, a, v.rex, mode);
        assert AddressBytes(reg, a) + rest == [x] + (DispBytesOf(a) + rest);
        v' := PlainBack(v, reg, a, x, Modrm(ModOf(disp), reg, base), mode, rest);
      case Absolute(d) =>
        var x := ModrmByte(0, reg, 5);
        AbsoluteParts(reg, a, v.rex, mode);
        assert AddressBytes(reg, a) + rest == [x] + (DispBytesOf(a) + rest);
        v' := PlainBack(v, reg, a, x, Modrm(0, reg, 5), mode, rest);
      case Scaled(_, _, ss, _) =>
        var x, y := ModrmByte(ModOfAddress(a), reg, 4), ModrmByte(ss, IndexOf(a), BaseOf(a) % 8);
        assert AddressBytes(reg, a) + rest == [x] + ([y] + (DispBytesOf(a) + rest));
        v' := ScaledBack(v, reg, a, mode, rest);
    }
  }

  lemma BasedParts(reg: nat, a: Address, rex: Rex, mode: Mode)
    requires a.Based? && AddressOk(a) && reg < 16 && rex.r == (reg >= 8) && rex.b == (a.base >= 8)
    ensures var m := ModrmOf(ModrmByte(ModOf(a.disp), reg, a.base % 8), rex);
            m == Modrm(ModOf(a.disp), reg, a.base) && ModrmParts(m, mode) == PartsOf(a, mode)
  {
    ModrmPartsBack(reg, a.base, ModOf(a.disp), rex, mode);
    DispLength(a.disp);
    hide ModrmOf, ModrmParts, ModrmByte;
  }

  lemma AbsoluteParts(reg: nat, a: Address, rex: Rex, mode: Mode)
    requires a.Absolute? && reg < 16 && rex.r == (reg >= 8)
    ensures var m := ModrmOf(ModrmByte(0, reg, 5), rex);
            m == Modrm(0, reg, 5) && ModrmParts(m, mode) == PartsOf(a, mode)
  {
    AbsolutePartsBack(reg, rex, mode);
  }

  lemma NoAddress(v: Vie, mode: Mode, rest: seq<Byte>)
    requires v.op.noModrm && v.modrm == INIT.modrm && v.parts == INIT.parts
    ensures AddressStage(mode)(v, rest) == Some((v, rest))
  {
  }

  // ---------------------------------------------------------------------------
  // Decoding undoes encoding: immediate and offset
  // ---------------------------------------------------------------------------

  lemma ImmediateBack(v: Vie, imm: int, rest: seq<Byte>) returns (v': Vie)
    requires var n := ImmediateBytes(v.op, v.opsize); n > 0 ==> InRange(imm, n)
    ensures
      var n := ImmediateBytes(v.op, v.opsize);
      var bytes := if n == 0 then [] else SignedBytes(imm, n);
      && DecodeImmediate(v, bytes + rest) == Some((v', rest))
      && v' == v.(processed := v.processed + |bytes|, immBytes := if n == 0 then v.immBytes else n,
                  immediate := if n == 0 then v.immediate else imm)
  {
    var n := ImmediateBytes(v.op, v.opsize);
    var bytes := if n == 0 then [] else SignedBytes(imm, n);
    var s := bytes + rest;
    if n == 0 {
      assert s == rest;
      v' := v;
    } else {
      SignedBytesBack(imm, n);
      assert s[..n] == bytes && s[n..] == rest;
      v' := DecodeImmediate(v, s).value.0;
    }
  }

  lemma MoffsetStageBack(v: Vie, x: nat, rest: seq<Byte>)
    requires v.op.moffset ==> (v.addrsize == 2 || v.addrsize == 4 || v.addrsize == 8) && x < MoffsetLimit(v.addrsize)
    ensures
      var bytes := if v.op.moffset then LittleEndian(x, v.addrsize) else [];
      DecodeMoffset(v, bytes + rest) ==
      Some((v.(processed := v.processed + |bytes|, displacement := if v.op.moffset then Offset(x) else v.displacement), rest))
  {
    var bytes := if v.op.moffset then LittleEndian(x, v.addrsize) else [];
    var s := bytes + rest;
    if v.op.moffset {
      MoffsetBack(x, v.addrsize);
      assert s[..|bytes|] == bytes && s[|bytes|..] == rest;
    } else {
      assert s == rest;
    }
  }

  // ---------------------------------------------------------------------------
  // Decoding undoes encoding
  // ---------------------------------------------------------------------------

  /** `v` tells everything about `i`. */
  ghost predicate Means(v: Vie, i: Insn, mode: Mode, d: bool)
    requires InsnOk(i, mode, d)
  {
    var op := OpOf(i.opcode).value;
    && v.processed == |Encode(i, mode, d)| && v.op == op
    && v.opsize == OperandSize(mode, d, i.w, 0x66 in i.prefixes)
    && v.addrsize == AddressSize(mode, d, 0x67 in i.prefixes)
    && v.flags == FlagsOf(INIT.flags, i.prefixes) && v.rex == RexFor(i)
    && (HasModrm(i) ==> v.modrm.reg == i.reg && v.parts == PartsOf(i.address, mode))
    && (!HasModrm(i) ==> v.parts == INIT.parts)
    && v.displacement ==
       (if op.moffset then Offset(i.moffset) else if HasModrm(i) then DispOfAddress(i.address) else 0)
    && v.immediate == (if ImmediateBytes(op, v.opsize) > 0 then i.imm else 0)
  }

  /** The memory operand of `i`, or nothing. */
  lemma OperandBack(i: Insn, mode: Mode, d: bool, rest: seq<Byte>) returns (v': Vie)
    requires InsnOk(i, mode, d)
    ensures
      var v := HeadOf(i, mode, d);
      var bytes := AddressPart(i);
      && AddressStage(mode)(v, bytes + rest) == Some((v', rest))
      && (if HasModrm(i)
          then Located(v, v', |bytes|, i.reg, PartsOf(i.address, mode), DispOfAddress(i.address))
          else v' == v)
  {
    var v := HeadOf(i, mode, d);
    hide AddressStage, AddressBytes, PartsOf, DispOfAddress, AddressOk, NeedsRex, OpOf, AddressSize, OperandSize, FlagsOf,
      RexBytes, OpcodeBytes, IndexOf, BaseOf, MoffsetLimit, ImmediateBytes;
    if HasModrm(i) {
      v' := AddressBack(v, i.reg, i.address, mode, rest);
    } else {
      assert [] + rest == rest;
      NoAddress(v, mode, rest);
      v' := v;
    }
  }

  lemma SizesAre(mode: Mode, d: bool, over: bool)
    ensures var n := AddressSize(mode, d, over); n == 2 || n == 4 || n == 8
  {
  }

  /** Immediate and offset of `i`, after its operand. */
  lemma TailBack(v: Vie, imm: int, moffset: nat, rest: seq<Byte>) returns (v': Vie)
    requires var n := ImmediateBytes(v.op, v.opsize); n > 0 ==> InRange(imm, n)
    requires v.op.moffset ==> (v.addrsize == 2 || v.addrsize == 4 || v.addrsize == 8) && moffset < MoffsetLimit(v.addrsize)
    ensures
      var n := ImmediateBytes(v.op, v.opsize);
      var a, b := ImmediatePart(v.op, v.opsize, imm), MoffsetPart(v.op, v.addrsize, moffset);
      && TailStage()(v, a + (b + rest)) == Some((v', rest))
      && v' == v.(processed := v.processed + |a| + |b|, immBytes := if n == 0 then v.immBytes else n,
                  immediate := if n == 0 then v.immediate else imm,
                  displacement := if v.op.moffset then Offset(moffset) else v.displacement)
  {
    hide ImmediateBytes, SignedBytes, InRange, MoffsetLimit, DecodeImmediate, DecodeMoffset, Offset;
    var b := if v.op.moffset then LittleEndian(moffset, v.addrsize) else [];
    var v1 := ImmediateBack(v, imm, b + rest);
    MoffsetStageBack(v1, moffset, rest);
    v' := DecodeMoffset(v1, b + rest).value.0;
  }

  /** For every supported instruction, whatever follows it, decoding recovers sizes, registers, scale,
      displacement, immediate and length. */
  lemma DecodeUndoesEncode(i: Insn, mode: Mode, d: bool, rest: seq<Byte>)
    requires InsnOk(i, mode, d)
    ensures Decode(Encode(i, mode, d) + rest, mode, d).Some?
    ensures Means(Decode(Encode(i, mode, d) + rest, mode, d).value, i, mode, d)
  {
    var op := OpOf(i.opcode).value;
    var opsize, addrsize := OperandSize(mode, d, i.w, 0x66 in i.prefixes), AddressSize(mode, d, 0x67 in i.prefixes);
    var address, imm, moff := AddressPart(i), ImmediatePart(op, opsize, i.imm), MoffsetPart(op, addrsize, i.moffset);
    SizesAre(mode, d, 0x67 in i.prefixes);
    hide HeadStage, AddressStage, TailStage, AddressPart, ImmediatePart, MoffsetPart, RexBytes, OpcodeBytes, AddressOk, OpOf,
      AddressSize, OperandSize, ImmediateBytes, FlagsOf, NeedsRex, RexFor, PartsOf, DispOfAddress, Offset, IsPrefix,
      InRange, MoffsetLimit;
    Regrouped(i.prefixes, RexBytes(i), OpcodeBytes(i.opcode), address, imm, moff, rest);
    var s2 := imm + (moff + rest);
    var s1 := address + s2;
    HeadBack(i, mode, d, s1);
    var v1 := OperandBack(i, mode, d, s2);
    var v2 := TailBack(v1, i.imm, i.moffset, rest);
    assert Pipeline(mode, d)(INIT, Encode(i, mode, d) + rest) == Some((v2, rest));
  }

  lemma Regrouped(a: seq<Byte>, b: seq<Byte>, c: seq<Byte>, e: seq<Byte>, f: seq<Byte>, g: seq<Byte>, rest: seq<Byte>)
    ensures a + b + c + e + f + g + rest == a + (b + (c + (e + (f + (g + rest)))))
  {
  }

  /** No strict truncation of an encoded instruction decodes. */
  lemma TruncationFails(i: Insn, mode: Mode, d: bool, k: nat)
    requires InsnOk(i, mode, d) && k < |Encode(i, mode, d)|
    ensures Decode(Encode(i, mode, d)[..k], mode, d).None?
  {
    var bytes := Encode(i, mode, d);
    assert bytes + [] == bytes;
    DecodeUndoesEncode(i, mode, d, []);
    hide Encode, Decode;
    DecodeIsLocal(bytes, mode, d);
  }

  // ---------------------------------------------------------------------------
  // The stages, in place
  // ---------------------------------------------------------------------------

  const INST_SIZE := 15

  /** The instruction buffer and what has been decoded of it. */
  class InstructionBuffer {
    const inst: seq<Byte>
    var vie: Vie

    constructor (bytes: seq<Byte>)
      requires |bytes| <= INST_SIZE
      ensures inst == bytes && vie == INIT && Valid() && Left() == bytes
    {
      inst := bytes;
      vie := INIT;
    }

    predicate Valid()
      reads this
    {
      vie.processed <= |inst|
    }

    /** The bytes not yet processed. */
    function Left(): seq<Byte>
      reads this
      requires Valid()
    {
      inst[vie.processed..]
    }

    method Peek() returns (x: Option<Byte>)
      requires Valid()
      ensures x == if Left() == [] then None else Some(Left()[0])
    {
      if vie.processed < |inst| {
        x := Some(inst[vie.processed]);
      } else {
        x := None;
      }
    }

    method ReadPrefixes(mode: Mode, d: bool) returns (ok: bool)
      requires Valid()
      modifies this
      ensures Valid()
      ensures DecodePrefixes(old(vie), old(Left()), mode, d) == if ok then Some((vie, Left())) else None
    {
      hide IsPrefix, PrefixFlags, RexOf, AddressSize, OperandSize;
      var x := Peek();
      while x.Some? && IsPrefix(x.value)
        invariant Valid() && x == (if Left() == [] then None else Some(Left()[0]))
        invariant LegacyPrefixes(vie, Left()) == LegacyPrefixes(old(vie), old(Left()))
        decreases |inst| - vie.processed
      {
        ghost var s := Left();
        vie := Advance(Prefixed(vie, x.value));
        assert Left() == s[1..];
        x := Peek();
      }
      if x.None? {
        return false;
      }
      ghost var s := Left();
      if IsRex(mode, x.value) {
        vie := Advance(vie.(rex := RexOf(x.value)));
        assert Left() == s[1..];
      }
      vie := Sized(vie, mode, d);
      return true;
    }

    method ReadOpcode() returns (ok: bool)
      requires Valid()
      modifies this
      ensures Valid()
      ensures DecodeOpcode(old(vie), old(Left())) == if ok then Some((vie, Left())) else None
    {
      hide OneByteOp, TwoByteOp;
      var x := Peek();
      if x.None? || OneByteOp(x.value).None? {
        return false;
      }
      ghost var s := Left();
      vie := Advance(vie.(op := OneByteOp(x.value).value));
      assert Left() == s[1..];
      if vie.op.kind == TwoByte {
        x := Peek();
        if x.None? || TwoByteOp(x.value).None? {
          return false;
        }
        vie := Advance(vie.(op := TwoByteOp(x.value).value));
        assert Left() == s[2..];
      }
      return true;
    }

    method ReadModrm(mode: Mode) returns (ok: bool)
      requires Valid()
      modifies this
      ensures Valid()
      ensures DecodeModrm(old(vie), old(Left()), mode) == if ok then Some((vie, Left())) else None
    {
      hide ModrmOf, ModrmParts;
      if vie.op.noModrm {
        return true;
      }
      var x := Peek();
      if mode == Real || x.None? {
        return false;
      }
      var m := ModrmOf(x.value, vie.rex);
      if m.mod == 3 {
        return false;
      }
      vie := vie.(modrm := m);
      if m.rm != 4 {
        vie := vie.(parts := ModrmParts(m, mode));
      }
      vie := Advance(vie);
      assert Left() == old(Left())[1..];
      return true;
    }

    method ReadSib() returns (ok: bool)
      requires Valid()
      modifies this
      ensures Valid()
      ensures DecodeSib(old(vie), old(Left())) == if ok then Some((vie, Left())) else None
    {
      hide SibOf, SibParts;
      if vie.modrm.mod == 3 || vie.modrm.rm != 4 {
        return true;
      }
      var x := Peek();
      if x.None? {
        return false;
      }
      vie := vie.(sib := SibOf(x.value, vie.rex));
      vie := Advance(vie.(parts := SibParts(vie.modrm.mod, vie.sib)));
      assert Left() == old(Left())[1..];
      return true;
    }

    /** Reads `n` bytes one at a time. */
    method ReadBytes(n: nat) returns (bytes: Option<seq<Byte>>)
      requires Valid()
      modifies this
      ensures Valid()
      ensures TakeBytes(old(vie), old(Left()), n) == if bytes.Some? then Some((vie, bytes.value, Left())) else None
    {
      var b: seq<Byte> := [];
      for i := 0 to n
        invariant Valid() && i <= |old(Left())| && vie == old(vie).(processed := old(vie).processed + i)
        invariant b == old(Left())[..i] && Left() == old(Left())[i..]
      {
        var x := Peek();
        if x.None? {
          return None;
        }
        vie := Advance(vie);
        b := b + [x.value];
        assert old(Left())[..i + 1] == old(Left())[..i] + [old(Left())[i]];
      }
      return Some(b);
    }

    method ReadDisplacement() returns (ok: bool)
      requires Valid()
      modifies this
      ensures Valid()
      ensures DecodeDisplacement(old(vie), old(Left())) == if ok then Some((vie, Left())) else None
    {
      hide Signed, Value;
      var n := vie.parts.dispBytes;
      if n == 0 {
        return true;
      }
      var b := ReadBytes(n);
      if b.None? {
        return false;
      }
      vie := vie.(displacement := Signed(Value(b.value), n));
      return true;
    }

    method ReadImmediate() returns (ok: bool)
      requires Valid()
      modifies this
      ensures Valid()
      ensures DecodeImmediate(old(vie), old(Left())) == if ok then Some((vie, Left())) else None
    {
      hide Signed, Value, ImmediateBytes;
      var n := ImmediateBytes(vie.op, vie.opsize);
      if n == 0 {
        return true;
      }
      vie := vie.(immBytes := n);
      var b := ReadBytes(n);
      if b.None? {
        return false;
      }
      vie := vie.(immediate := Signed(Value(b.value), n));
      return true;
    }

    method ReadMoffset() returns (ok: bool)
      requires Valid()
      modifies this
      ensures Valid()
      ensures DecodeMoffset(old(vie), old(Left())) == if ok then Some((vie, Left())) else None
    {
      hide Value;
      if !vie.op.moffset {
        return true;
      }
      var b := ReadBytes(vie.addrsize);
      if b.None? {
        return false;
      }
      vie := vie.(displacement := Offset(Value(b.value)));
      return true;
    }

    /** All stages, in order. */
    method Run(mode: Mode, d: bool) returns (ok: bool)
      requires Valid() && vie == INIT
      modifies this
      ensures Valid() && Decode(inst, mode, d) == if ok then Some(vie) else None
    {
      hide DecodePrefixes, DecodeOpcode, DecodeModrm, DecodeSib, DecodeDisplacement, DecodeImmediate, DecodeMoffset;
      assert Left() == inst;
      ok := ReadPrefixes(mode, d);
      if ok { ok := ReadOpcode(); }
      if ok { ok := ReadModrm(mode); }
      if ok { ok := ReadSib(); }
      if ok { ok := ReadDisplacement(); }
      if ok { ok := ReadImmediate(); }
      if ok { ok := ReadMoffset(); }
    }
  }
}
