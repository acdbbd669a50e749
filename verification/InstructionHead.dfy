/** What the decoder makes of the first bytes of any buffer: prefixes, REX, sizes and opcode, byte by byte as the
    instruction set defines them. */
module InstructionHead {
  import opened Wrappers
  import opened Bytes
  import opened InstructionDecoder

  // ---------------------------------------------------------------------------
  // Legacy prefixes
  // ---------------------------------------------------------------------------

  const PREFIXES: set<Byte> := {0x26, 0x2E, 0x36, 0x3E, 0x64, 0x65, 0x66, 0x67, 0xF2, 0xF3}

  /** The number of legacy prefixes in front. */
  function PrefixCount(s: seq<Byte>): (n: nat)
    ensures n <= |s| && (n < |s| ==> s[n] !in PREFIXES) && forall i | 0 <= i < n :: s[i] in PREFIXES
  {
    if s == [] || s[0] !in PREFIXES then 0 else 1 + PrefixCount(s[1..])
  }

  /** The segment of the last segment prefix. */
  function SegmentAfter(s: seq<Byte>): Option<Segment> {
    if s == [] then None
    else
      var x := s[|s| - 1];
      if x == 0x26 then Some(ES) else if x == 0x2E then Some(CS) else if x == 0x36 then Some(SS)
      else if x == 0x3E then Some(DS) else if x == 0x64 then Some(FS) else if x == 0x65 then Some(GS)
      else SegmentAfter(s[..|s| - 1])
  }

  lemma PrefixIff(x: Byte)
    ensures IsPrefix(x) <==> x in PREFIXES
  {
  }

  /** The flags after the prefixes `s`. */
  function FlagsAfter(s: seq<Byte>): Flags {
    Flags(0x66 in s, 0x67 in s, 0xF3 in s, 0xF2 in s, SegmentAfter(s))
  }

  lemma OneMorePrefix(s: seq<Byte>, x: Byte)
    requires x in PREFIXES
    ensures PrefixFlags(FlagsAfter(s), x) == FlagsAfter(s + [x])
  {
    assert (s + [x])[..|s|] == s && (s + [x])[|s|] == x;
    assert forall y :: y in s + [x] <==> y in s || y == x;
  }

  /** The legacy prefixes are all read; each sets its flag, and the last segment prefix counts. */
  lemma {:induction false} LegacyMeans(v: Vie, done: seq<Byte>, s: seq<Byte>)
    requires v.flags == FlagsAfter(done)
    ensures
      var n := PrefixCount(s);
      LegacyPrefixes(v, s) ==
      if n == |s| then None
      else Some((v.(processed := v.processed + n, flags := FlagsAfter(done + s[..n])), s[n..]))
    decreases |s|
  {
    var n := PrefixCount(s);
    if s != [] {
      PrefixIff(s[0]);
      hide IsPrefix, PrefixFlags, FlagsAfter;
      if n > 0 {
        OneMorePrefix(done, s[0]);
        LegacyMeans(Advance(Prefixed(v, s[0])), done + [s[0]], s[1..]);
        assert n < |s| ==> done + [s[0]] + s[1..][..n - 1] == done + s[..n];
      } else {
        assert done + s[..0] == done;
      }
    }
  }

  // ---------------------------------------------------------------------------
  // Sizes and opcode
  // ---------------------------------------------------------------------------

  /** Operands have 8 bytes under REX.W, 2 or 4 otherwise; the override swaps the default of the segment, and has no
      say under REX.W. */
  predicate OperandSizeIs(n: nat, mode: Mode, d: bool, w: bool, over: bool) {
    && (n == 8 <==> mode == Long && w) && (n == 4 <==> !(mode == Long && w) && ((mode == Long || d) != over))
    && (n == 2 <==> !(mode == Long && w) && ((mode == Long || d) == over))
  }

  /** Addresses have 8 or 4 bytes in 64-bit mode, 4 or 2 otherwise. */
  predicate AddressSizeIs(n: nat, mode: Mode, d: bool, over: bool) {
    && (n == 8 <==> mode == Long && !over) && (n == 2 <==> mode != Long && d == over)
    && (n == 4 <==> if mode == Long then over else d != over)
  }

  /** The operation of a one-byte opcode and its operands. */
  predicate OneByteMeans(b: Byte, op: Op) {
    && op.byte == b
    && (op.kind == Mov <==> b in {0x88, 0x89, 0x8A, 0x8B, 0xA1, 0xA3, 0xC6, 0xC7})
    && (op.kind == And <==> b == 0x23) && (op.kind == Sub <==> b == 0x2B) && (op.kind == Cmp <==> b == 0x3B)
    && (op.kind == Group1 <==> b in {0x80, 0x81, 0x83}) && (op.kind == Pop <==> b == 0x8F)
    && (op.kind == Movs <==> b in {0xA4, 0xA5}) && (op.kind == Stos <==> b in {0xAA, 0xAB}) && (op.kind == Push <==> b == 0xFF)
    && (op.imm <==> b in {0x81, 0xC7}) && (op.imm8 <==> b in {0x80, 0x83, 0xC6})
    && (op.moffset <==> b in {0xA1, 0xA3}) && (op.noModrm <==> b in {0xA1, 0xA3, 0xA4, 0xA5, 0xAA, 0xAB})
    && b in {0x88, 0x89, 0x8A, 0x8B, 0xA1, 0xA3, 0xC6, 0xC7, 0x23, 0x2B, 0x3B, 0x80, 0x81, 0x83, 0x8F, 0xA4, 0xA5, 0xAA, 0xAB, 0xFF}
  }

  /** The operation of the second byte of a two-byte opcode. */
  predicate TwoByteMeans(b: Byte, op: Op) {
    && op.byte == b && (op.kind == Movzx <==> b in {0xB6, 0xB7}) && (op.kind == BitTest <==> b == 0xBA)
    && (op.kind == Movsx <==> b == 0xBE) && b in {0xB6, 0xB7, 0xBA, 0xBE}
    && (op.imm8 <==> b == 0xBA) && !op.imm && !op.moffset && !op.noModrm
  }

  lemma OneByteTable(b: Byte)
    requires OneByteOp(b).Some? && b != 0x0F
    ensures OneByteMeans(b, OneByteOp(b).value) && OneByteOp(b).value.kind != TwoByte
  {
  }

  lemma TwoByteTable(b: Byte)
    requires TwoByteOp(b).Some?
    ensures TwoByteMeans(b, TwoByteOp(b).value)
  {
  }

  /** Exactly these opcodes are supported. */
  lemma SupportedIff(b: Byte)
    ensures OneByteOp(b).Some? <==> b == 0x0F || exists op :: OneByteMeans(b, op)
    ensures TwoByteOp(b).Some? <==> exists op :: TwoByteMeans(b, op)
    ensures OneByteOp(0x0F).Some? && OneByteOp(0x0F).value.kind == TwoByte
  {
    if OneByteOp(b).Some? && b != 0x0F {
      OneByteTable(b);
    }
    if TwoByteOp(b).Some? {
      TwoByteTable(b);
    }
  }

  /** An immediate operand has two bytes with 16-bit operands and four with larger ones, or one byte. */
  predicate ImmediateIs(n: nat, op: Op, opsize: nat) {
    && (n == 4 <==> op.imm && opsize >= 4) && (n == 2 <==> op.imm && opsize < 4) && (n == 1 <==> op.imm8 && !op.imm)
    && (n == 0 <==> !op.imm && !op.imm8)
  }

  /** Everything that the first bytes of an instruction determine. */
  ghost predicate HeadMeans(bytes: seq<Byte>, mode: Mode, d: bool, v: Vie) {
    var n := PrefixCount(bytes);
    && n < |bytes|
    && var rex := mode == Long && 0x40 <= bytes[n] <= 0x4F;
    var o := if rex then n + 1 else n;
    && o < |bytes| && v.flags == FlagsAfter(bytes[..n])
    && v.rex.present == rex && (v.rex.w <==> rex && bytes[n] >= 0x48)
    && OperandSizeIs(v.opsize, mode, d, v.rex.w, 0x66 in bytes[..n]) && AddressSizeIs(v.addrsize, mode, d, 0x67 in bytes[..n])
    && (if bytes[o] == 0x0F then o + 1 < |bytes| && TwoByteMeans(bytes[o + 1], v.op) else OneByteMeans(bytes[o], v.op))
  }

  lemma SizesMean(mode: Mode, d: bool, w: bool, over: bool)
    ensures OperandSizeIs(OperandSize(mode, d, w, over), mode, d, w, over)
    ensures AddressSizeIs(AddressSize(mode, d, over), mode, d, over)
  {
  }

  /** The opcode at the front of `s`. */
  predicate OpcodeMeans(s: seq<Byte>, op: Op) {
    && s != []
    && if s[0] == 0x0F then |s| > 1 && TwoByteMeans(s[1], op) else OneByteMeans(s[0], op)
  }

  lemma OpcodeStageMeans(v: Vie, s: seq<Byte>)
    requires DecodeOpcode(v, s).Some?
    ensures
      var v' := DecodeOpcode(v, s).value.0;
      OpcodeMeans(s, v'.op) && v' == v.(op := v'.op, processed := v'.processed)
  {
    SupportedIff(s[0]);
    if s[0] != 0x0F {
      OneByteTable(s[0]);
    } else {
      TwoByteTable(s[1]);
    }
    hide OneByteOp, TwoByteOp, OneByteMeans, TwoByteMeans;
  }

  lemma RexMeans(v: Vie, s: seq<Byte>, mode: Mode, d: bool)
    requires s != [] && v.rex == INIT.rex
    ensures
      var (v', s') := RexAndSizes(v, s, mode, d);
      var rex := mode == Long && 0x40 <= s[0] <= 0x4F;
      && s' == (if rex then s[1..] else s) && v'.flags == v.flags && v'.immBytes == v.immBytes
      && v'.rex.present == rex && (v'.rex.w <==> rex && s[0] >= 0x48)
      && OperandSizeIs(v'.opsize, mode, d, v'.rex.w, v.flags.opsizeOverride)
      && AddressSizeIs(v'.addrsize, mode, d, v.flags.addrsizeOverride)
  {
    var (v', s') := RexAndSizes(v, s, mode, d);
    SizesMean(mode, d, v'.rex.w, v.flags.opsizeOverride);
    SizesMean(mode, d, v'.rex.w, v.flags.addrsizeOverride);
    hide OperandSize, AddressSize, OperandSizeIs, AddressSizeIs;
  }

  lemma HeadStageMeans(bytes: seq<Byte>, mode: Mode, d: bool)
    requires HeadStage(mode, d)(INIT, bytes).Some?
    ensures HeadMeans(bytes, mode, d, HeadStage(mode, d)(INIT, bytes).value.0)
    ensures HeadStage(mode, d)(INIT, bytes).value.0.immBytes == 0
  {
    AfterPrefixes(bytes, mode, d);
    var n := PrefixCount(bytes);
    var v1 := INIT.(processed := n, flags := FlagsAfter(bytes[..n]));
    hide HeadStage, RexAndSizes, DecodeOpcode, OperandSizeIs, AddressSizeIs, OpcodeMeans, PrefixCount;
    RexMeans(v1, bytes[n..], mode, d);
    var (v2, s2) := RexAndSizes(v1, bytes[n..], mode, d);
    OpcodeStageMeans(v2, s2);
    var rex := mode == Long && 0x40 <= bytes[n] <= 0x4F;
    var o := if rex then n + 1 else n;
    assert s2 == bytes[o..];
    OpcodeAt(bytes, o, DecodeOpcode(v2, s2).value.0.op);
    hide SegmentAfter, OneByteMeans, TwoByteMeans;
  }

  lemma OpcodeAt(bytes: seq<Byte>, o: nat, op: Op)
    requires o <= |bytes| && OpcodeMeans(bytes[o..], op)
    ensures o < |bytes|
    ensures if bytes[o] == 0x0F then o + 1 < |bytes| && TwoByteMeans(bytes[o + 1], op) else OneByteMeans(bytes[o], op)
  {
    hide OneByteMeans, TwoByteMeans;
  }

  lemma AfterPrefixes(bytes: seq<Byte>, mode: Mode, d: bool)
    requires HeadStage(mode, d)(INIT, bytes).Some?
    ensures
      var n := PrefixCount(bytes);
      var v1 := INIT.(processed := n, flags := FlagsAfter(bytes[..n]));
      && n < |bytes|
      && var (v2, s2) := RexAndSizes(v1, bytes[n..], mode, d);
      HeadStage(mode, d)(INIT, bytes) == DecodeOpcode(v2, s2)
  {
    HeadUnfolds(INIT, bytes, mode, d);
    hide HeadStage, LegacyPrefixes, RexAndSizes, DecodeOpcode, PrefixCount;
    var n := PrefixCount(bytes);
    NoPrefixes();
    LegacyMeans(INIT, [], bytes);
    hide FlagsAfter;
    assert [] + bytes[..n] == bytes[..n];
  }

  lemma NoPrefixes()
    ensures INIT.flags == FlagsAfter([]) && INIT.processed == 0
  {
  }

  lemma HeadUnfolds(v: Vie, s: seq<Byte>, mode: Mode, d: bool)
    ensures HeadStage(mode, d)(v, s) ==
            match DecodePrefixes(v, s, mode, d)
            case None => None
            case Some((v1, s1)) => DecodeOpcode(v1, s1)
  {
    hide DecodePrefixes, DecodeOpcode;
  }

  /** The later stages leave flags, sizes and opcode alone. */
  predicate SameHead(v: Vie, v': Vie) {
    v'.flags == v.flags && v'.rex == v.rex && v'.addrsize == v.addrsize && v'.opsize == v.opsize && v'.op == v.op
  }

  lemma LaterStagesKeep(v: Vie, s: seq<Byte>, mode: Mode)
    requires AddressStage(mode)(v, s).Some?
    ensures var (v', s') := AddressStage(mode)(v, s).value; SameHead(v, v') && v'.immBytes == v.immBytes
  {
    hide ModrmOf, ModrmParts, SibOf, SibParts, Signed, Value;
  }

  lemma TailKeeps(v: Vie, s: seq<Byte>)
    requires TailStage()(v, s).Some? && v.immBytes == 0 && (v.opsize == 2 || v.opsize == 4 || v.opsize == 8)
    ensures var (v', s') := TailStage()(v, s).value; SameHead(v, v') && ImmediateIs(v'.immBytes, v.op, v.opsize)
  {
    hide Signed, Value, Offset;
  }

  /** Every decodable buffer, whatever its bytes: prefixes, REX, sizes, opcode and the length of its immediate are
      what the instruction set says. */
  lemma DecodedHead(bytes: seq<Byte>, mode: Mode, d: bool)
    requires Decode(bytes, mode, d).Some?
    ensures
      var v := Decode(bytes, mode, d).value;
      HeadMeans(bytes, mode, d, v) && ImmediateIs(v.immBytes, v.op, v.opsize)
  {
    hide HeadStage, AddressStage, TailStage, OneByteMeans, TwoByteMeans, FlagsAfter, OperandSizeIs, AddressSizeIs, ImmediateIs;
    HeadStageMeans(bytes, mode, d);
    var (v1, s1) := HeadStage(mode, d)(INIT, bytes).value;
    LaterStagesKeep(v1, s1, mode);
    var (v2, s2) := AddressStage(mode)(v1, s1).value;
    OneSize(v1.opsize, mode, d, v1.rex.w, 0x66 in bytes[..PrefixCount(bytes)]);
    TailKeeps(v2, s2);
  }

  lemma OneSize(n: nat, mode: Mode, d: bool, w: bool, over: bool)
    requires OperandSizeIs(n, mode, d, w, over)
    ensures n == 2 || n == 4 || n == 8
  {
  }

  // ---------------------------------------------------------------------------
  // Scale and offset
  // ---------------------------------------------------------------------------

  /** The upper two bits of the SIB byte give the scale, unless there is no index register. */
  lemma ScaleMeans(x: Byte, rex: Rex, mod: nat)
    ensures
      var parts := SibParts(mod, SibOf(x, rex));
      if parts.indexRegister == NoRegister then parts.scale == 0
      else parts.scale == if x < 0x40 then 1 else if x < 0x80 then 2 else if x < 0xC0 then 4 else 8
  {
  }

  /** A 64-bit offset is read as the signed number with the same 64 bits. */
  lemma OffsetMeans(x: nat)
    requires x < 0x1_0000_0000_0000_0000
    ensures -0x8000_0000_0000_0000 <= Offset(x) < 0x8000_0000_0000_0000
    ensures Offset(x) == x || Offset(x) + 0x1_0000_0000_0000_0000 == x
  {
  }
}
