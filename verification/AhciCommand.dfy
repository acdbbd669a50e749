/** What an AHCI command table asks for: the command FIS in its first bytes and, for packet commands,
    the SCSI command at 0x40.  Numbers of the ATA and SCSI standards keep their values. */
module AhciCommand {
  import opened Bytes

  /** What a command does to the port.  `more` says that the transfer needs another round, `range`
      that a trim list still has a nonempty range. */
  datatype Command =
    | NotH2D
    | Control(srst: bool)
    | Immediate(error: bool)
    | Transfer(ncq: bool, more: bool)
    | Flush
    | Trim(ncq: bool, range: bool, more: bool)
    | AtapiRead(empty: bool, more: bool)

  const ACMD := 0x40
  const TRIM_RANGES := 64

  /** A command table: FIS and packet bytes, length of the PRDT, lengths of the trim ranges that the
      PRDT points to, and whether splitting the transfer over the PRDT leaves a further round. */
  datatype RawTable = Table(cfis: seq<Byte>, prdtl: nat, ranges: seq<nat>, more: bool)

  type Table = t: RawTable | |t.cfis| == 0x80 && |t.ranges| == TRIM_RANGES
    witness RawTable.Table(seq(0x80, _ => 0), 0, seq(TRIM_RANGES, _ => 0), false)

  function Acmd(t: Table, i: nat): Byte
    requires i < 0x40
  {
    t.cfis[ACMD + i]
  }

  predicate Bit(x: Byte, mask: Byte)
    requires mask > 0
  {
    x / mask % 2 == 1
  }

  // ---------------------------------------------------------------------------
  // How much a command transfers
  // ---------------------------------------------------------------------------

  predicate IsQueued(op: Byte) {
    op == 0x60 || op == 0x61
  }

  predicate IsLba48(op: Byte) {
    op == 0x24 || op == 0x34 || op == 0x29 || op == 0x39 || op == 0x25 || op == 0x35
  }

  predicate IsReadWrite(op: Byte) {
    IsQueued(op) || IsLba48(op) || op == 0x20 || op == 0x30 || op == 0xC4 || op == 0xC5 || op == 0xC8 || op == 0xCA
  }

  /** The sector count of a read or write; a count of zero stands for the largest one. */
  function AtaBlocks(t: Table): (n: nat)
    ensures 1 <= n <= 65536
  {
    var op := t.cfis[2];
    if IsQueued(op) then Sectors(Word(t.cfis[11], t.cfis[3]), 65536)
    else if IsLba48(op) then Sectors(Word(t.cfis[13], t.cfis[12]), 65536)
    else Sectors(t.cfis[12], 256)
  }

  function Word(high: Byte, low: Byte): (n: nat)
    ensures n < 0x1_0000
  {
    0x100 * (high as int) + low
  }

  function Sectors(count: nat, whole: nat): nat {
    if count == 0 then whole else count
  }

  /** The number of 2048-byte blocks of a packet read. */
  function AtapiBlocks(t: Table): (n: nat)
    ensures n < 0x1_0000_0000
  {
    if Acmd(t, 0) == 0x28 then Word(Acmd(t, 7), Acmd(t, 8))
    else 0x1_0000 * Word(Acmd(t, 6), Acmd(t, 7)) + Word(Acmd(t, 8), Acmd(t, 9))
  }

  // ---------------------------------------------------------------------------
  // Commands
  // ---------------------------------------------------------------------------

  /** The first nonempty trim range at or after `k`. */
  function NextRange(ranges: seq<nat>, k: nat): (i: nat)
    requires k <= |ranges|
    ensures k <= i <= |ranges| && (i < |ranges| ==> ranges[i] != 0) && forall j | k <= j < i :: ranges[j] == 0
    decreases |ranges| - k
  {
    if k == |ranges| || ranges[k] != 0 then k else NextRange(ranges, k + 1)
  }

  function TrimFrom(t: Table, k: nat): Command
    requires k <= TRIM_RANGES
  {
    var i := NextRange(t.ranges, k);
    Trim(false, i < TRIM_RANGES, i + 1 != TRIM_RANGES)
  }

  /** SET FEATURES succeeds for notification, caches and transfer modes. */
  predicate FeatureKnown(t: Table) {
    var f := t.cfis[3];
    (f == 0x10 && t.cfis[12] == 0x05) || f == 0x02 || f == 0x82 || f == 0xAA || f == 0x55 || f == 0x03
  }

  /** SET MULTIPLE accepts zero and powers of two up to 128. */
  predicate MultipleKnown(n: Byte) {
    n == 0 || n == 1 || n == 2 || n == 4 || n == 8 || n == 16 || n == 32 || n == 64 || n == 128
  }

  predicate LogKnown(t: Table, atapi: bool) {
    && !atapi && t.prdtl != 0 && t.cfis[4] == 0x10 && t.cfis[5] == 0 && t.cfis[9] == 0
    && t.cfis[12] == 1 && t.cfis[13] == 0
  }

  function PacketCommand(t: Table): Command {
    match Acmd(t, 0)
    case 0x00 => Immediate(false)
    case 0x12 => Immediate(Bit(Acmd(t, 1), 1) && Acmd(t, 2) != 0)
    case 0x25 => Immediate(false)
    case 0x1E => Immediate(false)
    case 0x43 => Immediate(TocUnknown(t))
    case 0xA0 => Immediate(false)
    case 0x28 => AtapiRead(AtapiBlocks(t) == 0, t.more)
    case 0xA8 => AtapiRead(AtapiBlocks(t) == 0, t.more)
    case 0x03 => Immediate(false)
    case 0x1B => Immediate(Acmd(t, 4) % 4 == 2)
    case 0x5A => Immediate(!(Acmd(t, 2) == 0x01 || Acmd(t, 2) == 0x2A))
    case 0x4A => Immediate(!Bit(Acmd(t, 1), 1))
    case _ => Immediate(true)
  }

  predicate TocUnknown(t: Table) {
    var format, track := Acmd(t, 9) / 64, Acmd(t, 6);
    format == 3 || (format == 0 && track > 1 && track != 0xAA)
  }

  /** A queued trim asks for a subcommand of 0 and of 1 in the same byte. */
  predicate QueuedTrim(t: Table) {
    t.cfis[13] % 32 == 0x00 && t.cfis[17] == 0 && t.cfis[16] == 0x01 && t.cfis[11] == 0 && t.cfis[13] == 1
  }

  function AtaCommand(t: Table, atapi: bool): Command {
    var op := t.cfis[2];
    if IsReadWrite(op) then Transfer(IsQueued(op), t.more)
    else
      match op
      case 0xEC => Immediate(atapi || t.prdtl == 0)
      case 0xEF => Immediate(!FeatureKnown(t))
      case 0xC6 => Immediate(!MultipleKnown(t.cfis[12]))
      case 0xE7 => Flush
      case 0xEA => Flush
      case 0x06 =>
        if t.cfis[11] == 0 && t.cfis[3] == 0x01 && t.cfis[13] == 0 && t.cfis[12] == 1 then TrimFrom(t, 0)
        else Immediate(true)
      case 0x64 => if QueuedTrim(t) then TrimFrom(t, 0).(ncq := true) else Immediate(true)
      case 0x2F => Immediate(!LogKnown(t, atapi))
      case 0x47 => Immediate(!LogKnown(t, atapi))
      case 0x00 => Immediate(true)
      case 0xE2 => Immediate(false)
      case 0xE0 => Immediate(false)
      case 0xE3 => Immediate(false)
      case 0xE1 => Immediate(false)
      case 0xE6 => Immediate(false)
      case 0xA1 => Immediate(!atapi)
      case 0xA0 => if atapi then PacketCommand(t) else Immediate(true)
      case _ => Immediate(true)
  }

  function CommandOf(t: Table, atapi: bool): Command {
    if t.cfis[0] != 0x27 then NotH2D
    else if Bit(t.cfis[1], 0x80) then AtaCommand(t, atapi)
    else Control(Bit(t.cfis[15], 0x04))
  }

  // ---------------------------------------------------------------------------
  // What the tables amount to
  // ---------------------------------------------------------------------------

  /** The set of multiples is exactly what the test for a power of two accepts. */
  lemma PowerTest(n: bv8)
    ensures MultipleKnown(n as int) <==> n == 0 || (n <= 128 && n & (n - 1) == 0)
  {
  }

  /** Only a table that does not begin with a host-to-device FIS is left unhandled. */
  lemma UnhandledIff(t: Table, atapi: bool)
    ensures CommandOf(t, atapi).NotH2D? <==> t.cfis[0] != 0x27
  {
    hide Acmd, TocUnknown, QueuedTrim, FeatureKnown, MultipleKnown, LogKnown, NextRange, IsReadWrite, Bit;
  }

  /** No table asks for a queued trim: its test can never succeed, so SEND FPDMA QUEUED is refused. */
  lemma NoQueuedTrim(t: Table, atapi: bool)
    ensures CommandOf(t, atapi).Trim? ==> !CommandOf(t, atapi).ncq
    ensures t.cfis[0] == 0x27 && Bit(t.cfis[1], 0x80) && t.cfis[2] == 0x64 ==> CommandOf(t, atapi) == Immediate(true)
  {
    assert !QueuedTrim(t);
    hide Acmd, TocUnknown, QueuedTrim, FeatureKnown, MultipleKnown, LogKnown, NextRange, Bit;
  }

  // ---------------------------------------------------------------------------
  // Outcome by outcome
  // ---------------------------------------------------------------------------

  /** The table holds a host-to-device FIS with a command. */
  predicate HasCommand(t: Table) {
    t.cfis[0] == 0x27 && t.cfis[1] >= 0x80
  }

  /** A packet command that is answered at once and without an error. */
  predicate PacketAnswered(t: Table) {
    var scsi := t.cfis[0x40];
    || scsi in {0x00, 0x03, 0x1E, 0x25, 0xA0}
    || (scsi == 0x12 && (t.cfis[0x41] % 2 == 0 || t.cfis[0x42] == 0))
    || (scsi == 0x1B && t.cfis[0x44] % 4 != 2)
    || (scsi == 0x43 && t.cfis[0x49] < 0xC0 && (t.cfis[0x49] >= 0x40 || t.cfis[0x46] <= 1 || t.cfis[0x46] == 0xAA))
    || (scsi == 0x4A && t.cfis[0x41] % 2 == 1)
    || (scsi == 0x5A && t.cfis[0x42] in {0x01, 0x2A})
  }

  /** A command that is answered at once and without an error. */
  predicate AnsweredAtOnce(t: Table, atapi: bool) {
    var op := t.cfis[2];
    || op in {0xE0, 0xE1, 0xE2, 0xE3, 0xE6}
    || (op == 0xEC && !atapi && t.prdtl > 0)
    || (op == 0xA1 && atapi)
    || (op == 0xEF && (t.cfis[3] in {0x02, 0x03, 0x55, 0x82, 0xAA} || (t.cfis[3] == 0x10 && t.cfis[12] == 0x05)))
    || (op == 0xC6 && t.cfis[12] in {0, 1, 2, 4, 8, 16, 32, 64, 128})
    || (op in {0x2F, 0x47} && !atapi && t.prdtl > 0 && t.cfis[4] == 0x10 && t.cfis[5] == t.cfis[9] == t.cfis[13] == 0
        && t.cfis[12] == 1)
    || (op == 0xA0 && atapi && PacketAnswered(t))
  }

  lemma PacketMeans(t: Table)
    ensures
      var c, scsi := PacketCommand(t), t.cfis[0x40];
      && (c.AtapiRead? <==> scsi in {0x28, 0xA8}) && (c.AtapiRead? ==> (c.empty <==> AtapiBlocks(t) == 0) && c.more == t.more)
      && (c == Immediate(false) <==> PacketAnswered(t)) && (c.AtapiRead? || c.Immediate?)
  {
    hide AtapiBlocks;
  }

  lemma AtaMeans(t: Table, atapi: bool)
    ensures
      var c, op := AtaCommand(t, atapi), t.cfis[2];
      && (c.Transfer? <==> op in {0x20, 0x24, 0x25, 0x29, 0x30, 0x34, 0x35, 0x39, 0x60, 0x61, 0xC4, 0xC5, 0xC8, 0xCA})
      && (c.Transfer? ==> (c.ncq <==> op in {0x60, 0x61}) && c.more == t.more)
      && (c.Flush? <==> op in {0xE7, 0xEA})
      && (c.Trim? <==> op == 0x06 && t.cfis[3] == 1 && t.cfis[11] == 0 && t.cfis[12] == 1 && t.cfis[13] == 0)
      && (c.Trim? ==> c == TrimFrom(t, 0) && !c.ncq)
      && (c.AtapiRead? <==> op == 0xA0 && atapi && t.cfis[0x40] in {0x28, 0xA8})
      && (c == Immediate(false) <==> AnsweredAtOnce(t, atapi)) && !c.NotH2D? && !c.Control?
  {
    PacketMeans(t);
    assert !QueuedTrim(t);
    hide PacketCommand, PacketAnswered, TrimFrom, QueuedTrim;
  }

  /** Every command table, outcome by outcome; what is not listed is refused with an error. */
  lemma CommandMeans(t: Table, atapi: bool)
    ensures
      var c, op := CommandOf(t, atapi), t.cfis[2];
      && (c.NotH2D? <==> t.cfis[0] != 0x27)
      && (c.Control? <==> t.cfis[0] == 0x27 && t.cfis[1] < 0x80) && (c.Control? ==> (c.srst <==> t.cfis[15] % 8 >= 4))
      && (c.Transfer? <==>
            HasCommand(t) && op in {0x20, 0x24, 0x25, 0x29, 0x30, 0x34, 0x35, 0x39, 0x60, 0x61, 0xC4, 0xC5, 0xC8, 0xCA})
      && (c.Transfer? ==> (c.ncq <==> op in {0x60, 0x61}) && c.more == t.more)
      && (c.Flush? <==> HasCommand(t) && op in {0xE7, 0xEA})
      && (c.Trim? <==> HasCommand(t) && op == 0x06 && t.cfis[3] == 1 && t.cfis[11] == 0 && t.cfis[12] == 1 && t.cfis[13] == 0)
      && (c.AtapiRead? <==> HasCommand(t) && op == 0xA0 && atapi && t.cfis[0x40] in {0x28, 0xA8})
      && (c == Immediate(false) <==> HasCommand(t) && AnsweredAtOnce(t, atapi))
  {
    AtaMeans(t, atapi);
    HighBit(t.cfis[1]);
    ThirdBit(t.cfis[15]);
    hide AtaCommand, AnsweredAtOnce, Bit;
  }

  lemma HighBit(x: Byte)
    ensures Bit(x, 0x80) <==> x >= 0x80
  {
  }

  lemma ThirdBit(x: Byte)
    ensures Bit(x, 0x04) <==> x % 8 >= 4
  {
  }

  /** A trim goes to the device iff some of its 64 ranges is not empty, and needs another round unless the first
      such range is the last of all. */
  lemma TrimMeans(t: Table)
    ensures
      var c := TrimFrom(t, 0);
      && c.Trim? && !c.ncq && (c.range <==> exists k | 0 <= k < 64 :: t.ranges[k] != 0)
      && (c.more <==> !(t.ranges[63] != 0 && forall k | 0 <= k < 63 :: t.ranges[k] == 0))
  {
    var i := NextRange(t.ranges, 0);
  }

  /** Sector counts lie in bytes 3 and 11 of a queued command, 12 and 13 of an extended one and 12 of the others; zero
      stands for the largest count. */
  lemma AtaBlocksMean(t: Table)
    ensures
      var op, n := t.cfis[2], AtaBlocks(t);
      if op in {0x60, 0x61} then n % 0x1_0000 == t.cfis[3] as int + 0x100 * (t.cfis[11] as int) && 0 < n <= 0x1_0000
      else if op in {0x24, 0x25, 0x29, 0x34, 0x35, 0x39} then n % 0x1_0000 == t.cfis[12] as int + 0x100 * (t.cfis[13] as int) && 0 < n <= 0x1_0000
      else n % 0x100 == t.cfis[12] && 0 < n <= 0x100
  {
  }

  /** Block counts of packet reads are big-endian: two bytes of READ(10), four of the others. */
  lemma AtapiBlocksMean(t: Table)
    ensures AtapiBlocks(t) ==
            if t.cfis[0x40] == 0x28 then 0x100 * (t.cfis[0x47] as int) + t.cfis[0x48] as int
            else 0x100_0000 * (t.cfis[0x46] as int) + 0x1_0000 * (t.cfis[0x47] as int) + 0x100 * (t.cfis[0x48] as int)
                 + t.cfis[0x49] as int
  {
  }
}
