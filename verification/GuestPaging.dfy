/** Guest linear to guest physical translation.

    `Translate` is the architectural page walk as a recursion over the table levels, with every
    field of an entry picked out by a mask.  Class `Vm` performs the monitor's walk instead: it
    loops with shifts, writes Accessed and Dirty bits into the very memory it walks by
    compare-and-set, and starts over when a compare fails.  Its contract says that the two agree. */
module GuestPaging {

  /** Guest physical memory, byte by byte. */
  type Ram = bv64 -> bv8

  /** A memory segment; one without a host object is skipped. */
  datatype Segment = Segment(base: bv64, len: bv64, hasObject: bool)

  datatype PagingMode = Flat | Legacy32 | Pae | FourLevel

  datatype Paging = Paging(cr3: bv64, user: bool, long64: bool, mode: PagingMode)

  datatype Access = Access(write: bool, exec: bool)

  /** The layout of a page-table entry: 4-byte entries or 8-byte entries. */
  datatype Format = Narrow | Wide

  datatype Outcome =
    | Address(gpa: bv64)
    | PageFault(code: bv32, cr2: bv64)
    | ProtectionFault
    | NotBacked

  const PG_V: bv64 := 0x001
  const PG_RW: bv64 := 0x002
  const PG_U: bv64 := 0x004
  const PG_A: bv64 := 0x020
  const PG_M: bv64 := 0x040
  const PG_PS: bv64 := 0x080
  const PAGE_SIZE: bv64 := 0x1000
  const PAGE_MASK: bv64 := 0xfff

  // ---------------------------------------------------------------------------
  // Entries in memory
  // ---------------------------------------------------------------------------

  /** A page-table entry as it lies in memory, least significant byte first.  A narrow entry has
      `hi` zero. */
  datatype Entry = Entry(b0: bv8, b1: bv8, b2: bv8, b3: bv8, b4: bv8, b5: bv8, b6: bv8, b7: bv8)

  function Value(e: Entry): bv64 {
    (e.b0 as bv64) | (e.b1 as bv64 << 8) | (e.b2 as bv64 << 16) | (e.b3 as bv64 << 24) |
    (e.b4 as bv64 << 32) | (e.b5 as bv64 << 40) | (e.b6 as bv64 << 48) | (e.b7 as bv64 << 56)
  }

  /** The entry with a flag of its low byte set. */
  function WithFlag(e: Entry, flag: bv8): Entry {
    e.(b0 := e.b0 | flag)
  }

  const ACCESSED: bv8 := 0x20
  const DIRTY: bv8 := 0x40

  function Load(m: Ram, f: Format, a: bv64): Entry {
    if f.Narrow? then Entry(m(a), m(a + 1), m(a + 2), m(a + 3), 0, 0, 0, 0)
    else Entry(m(a), m(a + 1), m(a + 2), m(a + 3), m(a + 4), m(a + 5), m(a + 6), m(a + 7))
  }

  /** Stores a whole entry. */
  function Store(m: Ram, f: Format, a: bv64, e: Entry): Ram {
    (x: bv64) =>
      if x == a then e.b0
      else if x == a + 1 then e.b1
      else if x == a + 2 then e.b2
      else if x == a + 3 then e.b3
      else if f.Narrow? then m(x)
      else if x == a + 4 then e.b4
      else if x == a + 5 then e.b5
      else if x == a + 6 then e.b6
      else if x == a + 7 then e.b7
      else m(x)
  }

  /** Storing back a loaded entry with a flag set changes its first byte only. */
  lemma StoreSetsFlag(m: Ram, f: Format, a: bv64, flag: bv8, x: bv64)
    ensures Store(m, f, a, WithFlag(Load(m, f, a), flag))(x) == if x == a then m(x) | flag else m(x)
  {
  }

  predicate Aligned(f: Format, a: bv64) {
    if f.Narrow? then a & 3 == 0 else a & 7 == 0
  }

  function WithAd(b: bv8, accessed: bool, dirty: bool): bv8 {
    b | (if accessed then ACCESSED else 0) | (if dirty then DIRTY else 0)
  }

  /** `m'` is `m` with Accessed set in the entries at `visited` and Dirty in those at `dirty`. */
  ghost predicate AdUpdate(m: Ram, m': Ram, visited: seq<bv64>, dirty: seq<bv64>) {
    forall a: bv64 :: m'(a) == WithAd(m(a), a in visited, a in dirty)
  }

  /** Equal except for the Accessed and Dirty bits of aligned entries. */
  ghost predicate SameButAd(f: Format, m: Ram, m': Ram) {
    forall a: bv64 :: if Aligned(f, a) then m(a) & 0x9f == m'(a) & 0x9f else m(a) == m'(a)
  }

  lemma OrAd(b: bv8, accessed: bool, dirty: bool)
    ensures b & 0x9f == WithAd(b, accessed, dirty) & 0x9f
    ensures !accessed && !dirty ==> WithAd(b, accessed, dirty) == b
  {
  }

  lemma AdUpdateKeepsRest(f: Format, m: Ram, m': Ram, visited: seq<bv64>, dirty: seq<bv64>)
    requires AdUpdate(m, m', visited, dirty)
    requires forall a | a in visited || a in dirty :: Aligned(f, a)
    ensures SameButAd(f, m, m')
  {
    forall a: bv64
      ensures if Aligned(f, a) then m(a) & 0x9f == m'(a) & 0x9f else m(a) == m'(a)
    {
      OrAd(m(a), a in visited, a in dirty);
    }
  }

  /** Entries that differ in the Accessed and Dirty bits only. */
  predicate SameEntryButAd(e: Entry, e': Entry) {
    e.b0 & 0x9f == e'.b0 & 0x9f && e' == e.(b0 := e'.b0)
  }

  lemma LoadSameButAd(f: Format, m: Ram, m': Ram, a: bv64)
    requires SameButAd(f, m, m') && Aligned(f, a)
    ensures SameEntryButAd(Load(m, f, a), Load(m', f, a))
  {
    OffsetsNotAligned(f, a);
  }

  lemma OffsetsNotAligned(f: Format, a: bv64)
    requires Aligned(f, a)
    ensures !Aligned(f, a + 1) && !Aligned(f, a + 2) && !Aligned(f, a + 3)
    ensures f.Wide? ==> !Aligned(f, a + 4) && !Aligned(f, a + 5) && !Aligned(f, a + 6) && !Aligned(f, a + 7)
  {
  }

  // ---------------------------------------------------------------------------
  // The architectural walk
  // ---------------------------------------------------------------------------

  /** Some memory segment holds all of [gpa, gpa + len); the sums wrap as in the monitor. */
  predicate InSegment(g: Segment, gpa: bv64, len: bv64) {
    g.hasObject && gpa >= g.base && gpa + len <= g.base + g.len
  }

  predicate HasHva(segs: seq<Segment>, gpa: bv64, len: bv64) {
    exists g <- segs :: InSegment(g, gpa, len)
  }

  predicate Flag(e: Entry, mask: bv64) {
    Value(e) & mask != 0
  }

  predicate Permits(e: Entry, user: bool, write: bool) {
    Flag(e, PG_V) && (user ==> Flag(e, PG_U)) && (write ==> Flag(e, PG_RW))
  }

  function Masked(x: bv64, mask: bv64): bv64 { x & mask }

  /** The bits of `x` under `mask`, whose lowest bit is `lo`. */
  function Field(x: bv64, mask: bv64, lo: bv64): bv64
    requires lo < 64
  {
    ShiftRight(Masked(x, mask), lo)
  }

  function ShiftRight(x: bv64, lo: bv64): bv64
    requires lo < 64
  {
    x >> lo
  }

  /** Bits of the linear address that index the table of a level. */
  function Index(f: Format, level: nat, gla: bv64): bv64
    requires level <= 3
  {
    if f.Narrow? then
      if level == 0 then Field(gla, 0x003f_f000, 12) else Field(gla, 0xffc0_0000, 22)
    else if level == 0 then Field(gla, 0x001f_f000, 12)
    else if level == 1 then Field(gla, 0x3fe0_0000, 21)
    else if level == 2 then Field(gla, 0x007f_c000_0000, 30)
    else Field(gla, 0xff80_0000_0000, 39)
  }

  /** Bits of the linear address that are kept by a page mapped at a level. */
  function OffsetMask(f: Format, level: nat): bv64
    requires level <= 3
  {
    if level == 0 then 0xfff
    else if f.Narrow? then 0x3f_ffff
    else if level == 1 then 0x1f_ffff
    else if level == 2 then 0x3fff_ffff
    else 0x007f_ffff_ffff
  }

  /** The physical frame in an entry that maps a page of 4 KB, 4 MB, 2 MB, 1 GB or 512 GB. */
  function Frame4K(pte: bv64): bv64 { pte & 0x000f_ffff_ffff_f000 }
  function Frame4M(pte: bv64): bv64 { pte & 0x000f_ffff_ffc0_0000 }
  function Frame2M(pte: bv64): bv64 { pte & 0x000f_ffff_ffe0_0000 }
  function Frame1G(pte: bv64): bv64 { pte & 0x000f_ffff_c000_0000 }
  function Frame512G(pte: bv64): bv64 { pte & 0x000f_ff80_0000_0000 }

  /** Bits of an entry that give the physical address of the next table. */
  const TABLE_MASK: bv64 := 0x000f_ffff_ffff_f000

  function EntryAddr(f: Format, table: bv64, index: bv64): bv64 {
    if f.Narrow? then table + (index << 2) else table + (index << 3)
  }

  function NextTable(e: Entry): bv64 {
    Value(e) & TABLE_MASK
  }

  function FrameOf(f: Format, level: nat, pte: bv64): bv64
    requires level <= 3
  {
    if level == 0 then Frame4K(pte)
    else if f.Narrow? then Frame4M(pte)
    else if level == 1 then Frame2M(pte)
    else if level == 2 then Frame1G(pte)
    else Frame512G(pte)
  }

  function Splice(frame: bv64, offset: bv64): bv64 { frame | offset }

  function PageAddress(f: Format, level: nat, e: Entry, gla: bv64): bv64
    requires level <= 3
  {
    Splice(FrameOf(f, level, Value(e)), Masked(gla, OffsetMask(f, level)))
  }

  function PfErrorCode(user: bool, acc: Access, reserved: bool, e: Entry): bv32 {
    (if Flag(e, PG_V) then 0x01 else 0) |
    (if acc.write then 0x02 else 0) |
    (if user then 0x04 else 0) |
    (if reserved then 0x08 else 0) |
    (if acc.exec then 0x10 else 0)
  }

  /** What an entry found at a level means for the access. */
  datatype Decision = Deny(code: bv32) | Reserved(code: bv32) | Page(gpa: bv64) | Descend(table: bv64)

  function Decide(f: Format, level: nat, user: bool, acc: Access, e: Entry, gla: bv64): (d: Decision)
    requires level <= 3
    ensures d.Descend? ==> level > 0
  {
    if !Permits(e, user, acc.write) then Deny(PfErrorCode(user, acc, false, e))
    else if level > 0 && Flag(e, PG_PS) then
      if level == 3 then Reserved(PfErrorCode(user, acc, true, e))
      else Page(PageAddress(f, level, e, gla))
    else if level == 0 then Page(PageAddress(f, 0, e, gla))
    else Descend(NextTable(e))
  }

  /** The result of a walk and the addresses of the entries it accessed, root first. */
  datatype Walked = Walked(outcome: Outcome, visited: seq<bv64>)

  function WalkTable(m: Ram, segs: seq<Segment>, user: bool, acc: Access, f: Format, level: nat,
                     table: bv64, gla: bv64): Walked
    requires level <= 3
  {
    if !HasHva(segs, table, PAGE_SIZE) then Walked(NotBacked, [])
    else
      var a := EntryAddr(f, table, Index(f, level, gla));
      match Decide(f, level, user, acc, Load(m, f, a), gla)
      case Deny(code) => Walked(PageFault(code, gla), [])
      case Reserved(code) => Walked(PageFault(code, gla), [a])
      case Page(gpa) => Walked(Address(gpa), [a])
      case Descend(next) =>
        var rest := WalkTable(m, segs, user, acc, f, level - 1, next, gla);
        Walked(rest.outcome, [a] + rest.visited)
  }

  predicate NonCanonical(long64: bool, gla: bv64) {
    long64 && if Masked(gla, 0x8000_0000_0000) != 0 then Masked(gla, 0xffff_0000_0000_0000) != 0xffff_0000_0000_0000
              else Masked(gla, 0xffff_0000_0000_0000) != 0
  }

  function FormatOf(mode: PagingMode): Format {
    if mode.Legacy32? then Narrow else Wide
  }

  /** The root table: 4-KB aligned, except for the 32-byte PDPT of PAE. */
  function Root(mode: PagingMode, cr3: bv64): bv64 {
    match mode
    case Flat => 0
    case Legacy32 => cr3 & !PAGE_MASK
    case Pae => cr3 & 0xffff_ffe0
    case FourLevel => cr3 & TABLE_MASK
  }

  function PdptEntry(pg: Paging, gla: bv64): bv64 {
    EntryAddr(Wide, Root(Pae, pg.cr3), Field(gla, 0xc000_0000, 30))
  }

  function Translate(m: Ram, segs: seq<Segment>, pg: Paging, acc: Access, gla: bv64): Walked {
    if NonCanonical(pg.long64, gla) then Walked(ProtectionFault, [])
    else match pg.mode
      case Flat => Walked(Address(gla), [])
      case Legacy32 =>
        WalkTable(m, segs, pg.user, acc, Narrow, 1, Root(Legacy32, pg.cr3), gla)
      case Pae =>
        if !HasHva(segs, Root(Pae, pg.cr3), 32) then Walked(NotBacked, [])
        else
          var e := Load(m, Wide, PdptEntry(pg, gla));
          if !Flag(e, PG_V) then Walked(PageFault(PfErrorCode(pg.user, acc, false, e), gla), [])
          else WalkTable(m, segs, pg.user, acc, Wide, 1, NextTable(e), gla)
      case FourLevel =>
        WalkTable(m, segs, pg.user, acc, Wide, 3, Root(FourLevel, pg.cr3), gla)
  }

  /** The entry whose Dirty bit a completed walk sets. */
  function Dirtied(acc: Access, w: Walked): seq<bv64> {
    if acc.write && w.outcome.Address? && w.visited != [] then [w.visited[|w.visited| - 1]] else []
  }

  // ---------------------------------------------------------------------------
  // Accessed and Dirty bits are invisible to translation
  // ---------------------------------------------------------------------------

  lemma SameFields(e: Entry, e': Entry, mask: bv64)
    requires SameEntryButAd(e, e') && mask & 0x60 == 0
    ensures Value(e) & mask == Value(e') & mask
  {
    assert e.b0 as bv64 & 0x9f == e'.b0 as bv64 & 0x9f;
  }

  lemma SameFlags(e: Entry, e': Entry)
    requires SameEntryButAd(e, e')
    ensures Flag(e, PG_V) == Flag(e', PG_V) && Flag(e, PG_U) == Flag(e', PG_U)
    ensures Flag(e, PG_RW) == Flag(e', PG_RW) && Flag(e, PG_PS) == Flag(e', PG_PS)
  {
    hide Value;
    SameFields(e, e', PG_V);
    SameFields(e, e', PG_U);
    SameFields(e, e', PG_RW);
    SameFields(e, e', PG_PS);
  }

  lemma SameNextTable(e: Entry, e': Entry)
    requires SameEntryButAd(e, e')
    ensures NextTable(e) == NextTable(e')
  {
    hide Value, SameEntryButAd;
    SameFields(e, e', TABLE_MASK);
  }

  lemma SameFrame(f: Format, level: nat, e: Entry, e': Entry)
    requires SameEntryButAd(e, e') && level <= 3
    ensures FrameOf(f, level, Value(e)) == FrameOf(f, level, Value(e'))
  {
    hide Value, SameEntryButAd, Frame4K, Frame4M, Frame2M, Frame1G, Frame512G;
    SameFrame4K(e, e');
    SameFrame4M(e, e');
    SameFrame2M(e, e');
    SameFrame1G(e, e');
    SameFrame512G(e, e');
  }

  lemma SameFrame4K(e: Entry, e': Entry)
    requires SameEntryButAd(e, e')
    ensures Frame4K(Value(e)) == Frame4K(Value(e'))
  {
    hide Value, SameEntryButAd;
    SameFields(e, e', 0x000f_ffff_ffff_f000);
  }

  lemma SameFrame4M(e: Entry, e': Entry)
    requires SameEntryButAd(e, e')
    ensures Frame4M(Value(e)) == Frame4M(Value(e'))
  {
    hide Value, SameEntryButAd;
    SameFields(e, e', 0x000f_ffff_ffc0_0000);
  }

  lemma SameFrame2M(e: Entry, e': Entry)
    requires SameEntryButAd(e, e')
    ensures Frame2M(Value(e)) == Frame2M(Value(e'))
  {
    hide Value, SameEntryButAd;
    SameFields(e, e', 0x000f_ffff_ffe0_0000);
  }

  lemma SameFrame1G(e: Entry, e': Entry)
    requires SameEntryButAd(e, e')
    ensures Frame1G(Value(e)) == Frame1G(Value(e'))
  {
    hide Value, SameEntryButAd;
    SameFields(e, e', 0x000f_ffff_c000_0000);
  }

  lemma SameFrame512G(e: Entry, e': Entry)
    requires SameEntryButAd(e, e')
    ensures Frame512G(Value(e)) == Frame512G(Value(e'))
  {
    hide Value, SameEntryButAd;
    SameFields(e, e', 0x000f_ff80_0000_0000);
  }

  lemma SamePageAddress(f: Format, level: nat, e: Entry, e': Entry, gla: bv64)
    requires SameEntryButAd(e, e') && level <= 3
    ensures PageAddress(f, level, e, gla) == PageAddress(f, level, e', gla)
  {
    hide Value, SameEntryButAd, OffsetMask, FrameOf, Splice;
    SameFrame(f, level, e, e');
  }

  lemma SameMeaning(f: Format, level: nat, e: Entry, e': Entry, user: bool, acc: Access, gla: bv64)
    requires SameEntryButAd(e, e') && level <= 3
    ensures Permits(e, user, acc.write) == Permits(e', user, acc.write)
    ensures Flag(e, PG_PS) == Flag(e', PG_PS) && Flag(e, PG_V) == Flag(e', PG_V)
    ensures NextTable(e) == NextTable(e') && PageAddress(f, level, e, gla) == PageAddress(f, level, e', gla)
    ensures PfErrorCode(user, acc, false, e) == PfErrorCode(user, acc, false, e')
    ensures PfErrorCode(user, acc, true, e) == PfErrorCode(user, acc, true, e')
  {
    hide Value, Flag, NextTable, PageAddress, SameEntryButAd;
    SameFlags(e, e');
    SameNextTable(e, e');
    SamePageAddress(f, level, e, e', gla);
  }

  predicate PageAligned(a: bv64) {
    a & PAGE_MASK == 0
  }

  lemma EntryAligned(f: Format, table: bv64, level: nat, gla: bv64)
    requires PageAligned(table) && level <= 3
    ensures Aligned(f, EntryAddr(f, table, Index(f, level, gla)))
  {
  }

  lemma NextTableAligned(e: Entry)
    ensures PageAligned(NextTable(e))
  {
  }

  lemma SameDecision(f: Format, level: nat, user: bool, acc: Access, e: Entry, e': Entry, gla: bv64)
    requires SameEntryButAd(e, e') && level <= 3
    ensures Decide(f, level, user, acc, e, gla) == Decide(f, level, user, acc, e', gla)
  {
    hide Value, SameEntryButAd, NextTable, PageAddress, Permits, Flag, PfErrorCode;
    SameMeaning(f, level, e, e', user, acc, gla);
  }

  lemma DescendAligned(f: Format, level: nat, user: bool, acc: Access, e: Entry, gla: bv64)
    requires level <= 3
    ensures var d := Decide(f, level, user, acc, e, gla); d.Descend? ==> PageAligned(d.table)
  {
    hide Value, PageAddress, Permits, Flag, PfErrorCode, NextTable, PageAligned;
    NextTableAligned(e);
  }

  lemma {:induction false} WalkIgnoresAd(m: Ram, m': Ram, segs: seq<Segment>, user: bool, acc: Access, f: Format,
                      level: nat, table: bv64, gla: bv64)
    requires level <= 3 && PageAligned(table) && SameButAd(f, m, m')
    ensures WalkTable(m, segs, user, acc, f, level, table, gla) == WalkTable(m', segs, user, acc, f, level, table, gla)
    decreases level
  {
    hide Index, Aligned, PageAligned, EntryAddr, Load, SameEntryButAd, SameButAd, HasHva, Decide;
    var a := EntryAddr(f, table, Index(f, level, gla));
    var e, e' := Load(m, f, a), Load(m', f, a);
    EntryAligned(f, table, level, gla);
    LoadSameButAd(f, m, m', a);
    SameDecision(f, level, user, acc, e, e', gla);
    DescendAligned(f, level, user, acc, e, gla);
    var d := Decide(f, level, user, acc, e, gla);
    if d.Descend? {
      WalkIgnoresAd(m, m', segs, user, acc, f, level - 1, d.table, gla);
    }
  }

  /** Every 8-byte aligned entry begins where a 4-byte one does. */
  lemma WideIsNarrow(m: Ram, m': Ram)
    requires SameButAd(Wide, m, m')
    ensures SameButAd(Narrow, m, m')
  {
    forall a: bv64
      ensures if Aligned(Narrow, a) then m(a) & 0x9f == m'(a) & 0x9f else m(a) == m'(a)
    {
      assert if Aligned(Wide, a) then m(a) & 0x9f == m'(a) & 0x9f else m(a) == m'(a);
      assert Aligned(Wide, a) ==> Aligned(Narrow, a);
    }
  }

  /** Accessed and Dirty updates of entries of one width do not show in the other: wide updates never
      do, narrow ones do not show in narrow walks and, trivially, without paging. */
  predicate Hidden(updates: Format, mode: PagingMode) {
    updates.Wide? || mode.Flat? || mode.Legacy32?
  }

  /** Accessed and Dirty updates change no later translation in which they are hidden. */
  lemma TranslateIgnoresAd(updates: Format, m: Ram, m': Ram, segs: seq<Segment>, pg: Paging, acc: Access, gla: bv64)
    requires SameButAd(updates, m, m') && Hidden(updates, pg.mode)
    ensures Translate(m, segs, pg, acc, gla) == Translate(m', segs, pg, acc, gla)
  {
    hide Value, Index, Aligned, EntryAddr, Load, SameEntryButAd, NextTable, PageAddress, Permits, Flag, OffsetMask,
      SameButAd, PfErrorCode, NonCanonical, PdptEntry, PageAligned, WalkTable, HasHva, Root;
    if updates.Wide? {
      WideIsNarrow(m, m');
    }
    RootsAligned(pg.cr3);
    match pg.mode
    case Flat =>
    case Legacy32 =>
      WalkIgnoresAd(m, m', segs, pg.user, acc, Narrow, 1, Root(Legacy32, pg.cr3), gla);
    case Pae =>
      var e, e' := Load(m, Wide, PdptEntry(pg, gla)), Load(m', Wide, PdptEntry(pg, gla));
      PdptAligned(pg, gla);
      LoadSameButAd(Wide, m, m', PdptEntry(pg, gla));
      SameMeaning(Wide, 1, e, e', pg.user, acc, gla);
      NextTableAligned(e);
      WalkIgnoresAd(m, m', segs, pg.user, acc, Wide, 1, NextTable(e), gla);
    case FourLevel =>
      WalkIgnoresAd(m, m', segs, pg.user, acc, Wide, 3, Root(FourLevel, pg.cr3), gla);
  }

  // ---------------------------------------------------------------------------
  // Where they do show
  // ---------------------------------------------------------------------------

  /** A 4-byte entry whose update shows in the 8-byte entry around it: exactly one in the upper half. */
  lemma NarrowUpdateShowsIff(m: Ram, a: bv64, flag: bv8)
    requires Aligned(Narrow, a) && (flag == ACCESSED || flag == DIRTY) && m(a) & flag == 0
    ensures
      var m' := Store(m, Narrow, a, WithFlag(Load(m, Narrow, a), flag));
      && (SameButAd(Wide, m, m') <==> Aligned(Wide, a))
      && (!Aligned(Wide, a) ==> NextTable(Load(m', Wide, a - 4)) != NextTable(Load(m, Wide, a - 4)))
  {
    var m' := Store(m, Narrow, a, WithFlag(Load(m, Narrow, a), flag));
    hide Store, WithFlag, Load;
    forall x: bv64
      ensures m'(x) == if x == a then m(x) | flag else m(x)
    {
      StoreSetsFlag(m, Narrow, a, flag, x);
    }
    FlagBits(m(a), flag);
    if Aligned(Wide, a) {
      assert SameButAd(Wide, m, m');
    } else {
      assert m(a) != m'(a);
      UpperHalf(m, m', a, flag);
    }
  }

  lemma FlagBits(b: bv8, flag: bv8)
    requires (flag == ACCESSED || flag == DIRTY) && b & flag == 0
    ensures (b | flag) & 0x9f == b & 0x9f && b | flag != b
  {
  }

  lemma UpperHalf(m: Ram, m': Ram, a: bv64, flag: bv8)
    requires (flag == ACCESSED || flag == DIRTY) && m(a) & flag == 0
    requires forall x: bv64 :: m'(x) == if x == a then m(x) | flag else m(x)
    ensures NextTable(Load(m', Wide, a - 4)) != NextTable(Load(m, Wide, a - 4))
  {
    var e, e' := Load(m, Wide, a - 4), Load(m', Wide, a - 4);
    assert a - 4 + 4 == a;
    assert e.b4 == m(a) && e'.b4 == m(a) | flag;
    TableBits(e, flag);
    TableBits(e', flag);
  }

  /** Bits 5 and 6 of the fifth byte are address bits. */
  lemma TableBits(e: Entry, flag: bv8)
    requires flag == ACCESSED || flag == DIRTY
    ensures NextTable(e) & ((flag as bv64) << 32) == 0 <==> e.b4 & flag == 0
  {
  }

  /** A memory in which two 4-byte entries make up one 8-byte entry. */
  const SHARED_TABLE: Ram := (x: bv64) => if x == 0 || x == 4 then 1 else 0

  const SHARED_SEGMENTS := [Segment(0, 0x1000, true), Segment(0x1_0000_0000, 0x1000, true)]

  /** An entry with the given first and fifth byte. */
  function TwoBytes(low: bv8, high: bv8): Entry {
    Entry(low, 0, 0, 0, high, 0, 0, 0)
  }

  lemma SharedLoads(m': Ram)
    requires AdUpdate(SHARED_TABLE, m', [4, 0], [])
    ensures Load(SHARED_TABLE, Narrow, 4) == TwoBytes(1, 0) && Load(SHARED_TABLE, Narrow, 0) == TwoBytes(1, 0)
    ensures Load(SHARED_TABLE, Wide, 0) == TwoBytes(1, 1) && Load(SHARED_TABLE, Wide, 0x1_0000_0000) == TwoBytes(0, 0)
    ensures Load(m', Wide, 0) == TwoBytes(0x21, 0x21)
  {
  }

  lemma SharedBacked()
    ensures HasHva(SHARED_SEGMENTS, 0, 0x1000) && HasHva(SHARED_SEGMENTS, 0, 32)
    ensures HasHva(SHARED_SEGMENTS, 0x1_0000_0000, 0x1000) && !HasHva(SHARED_SEGMENTS, 0x21_0000_0000, 0x1000)
  {
    var low, high := SHARED_SEGMENTS[0], SHARED_SEGMENTS[1];
    assert low in SHARED_SEGMENTS && high in SHARED_SEGMENTS;
    assert InSegment(low, 0, 0x1000) && InSegment(low, 0, 32) && InSegment(high, 0x1_0000_0000, 0x1000);
    assert !InSegment(low, 0x21_0000_0000, 0x1000) && !InSegment(high, 0x21_0000_0000, 0x1000);
  }

  lemma SharedAddresses()
    ensures EntryAddr(Narrow, 0, Index(Narrow, 1, 0x40_0000)) == 4 && EntryAddr(Narrow, 0, Index(Narrow, 0, 0x40_0000)) == 0
    ensures forall level | 0 <= level <= 3 :: Index(Wide, level, 0) == 0
    ensures EntryAddr(Wide, 0, 0) == 0 && EntryAddr(Wide, 0x1_0000_0000, 0) == 0x1_0000_0000
    ensures PdptEntry(Paging(0, false, false, Pae), 0) == 0
    ensures Root(Legacy32, 0) == 0 && Root(Pae, 0) == 0 && Root(FourLevel, 0) == 0
  {
  }

  lemma SharedDecisions(level: nat)
    requires level <= 3
    ensures Flag(TwoBytes(1, 1), PG_V) && Flag(TwoBytes(0x21, 0x21), PG_V)
    ensures NextTable(TwoBytes(1, 0)) == 0 && NextTable(TwoBytes(1, 1)) == 0x1_0000_0000
    ensures NextTable(TwoBytes(0x21, 0x21)) == 0x21_0000_0000
    ensures Decide(Wide, level, false, Access(false, false), TwoBytes(0, 0), 0) == Deny(0)
    ensures level > 0 ==>
              && Decide(Narrow, level, false, Access(false, false), TwoBytes(1, 0), 0x40_0000) == Descend(0)
              && Decide(Wide, level, false, Access(false, false), TwoBytes(1, 1), 0) == Descend(0x1_0000_0000)
              && Decide(Wide, level, false, Access(false, false), TwoBytes(0x21, 0x21), 0) == Descend(0x21_0000_0000)
    ensures level == 0 ==> Decide(Narrow, 0, false, Access(false, false), TwoBytes(1, 0), 0x40_0000) == Page(0)
  {
    assert Value(TwoBytes(0, 0)) == 0 && Value(TwoBytes(1, 0)) == 1;
    assert Value(TwoBytes(1, 1)) == 0x1_0000_0001 && Value(TwoBytes(0x21, 0x21)) == 0x21_0000_0021;
  }

  /** Accessed bits set by a 2-level walk change the outcome of a later PAE or 4-level walk. */
  lemma NarrowUpdatesShow(m': Ram, pg: Paging)
    requires AdUpdate(SHARED_TABLE, m', [4, 0], [])
    requires pg == Paging(0, false, false, Pae) || pg == Paging(0, false, false, FourLevel)
    ensures Translate(SHARED_TABLE, SHARED_SEGMENTS, Paging(0, false, false, Legacy32), Access(false, false), 0x40_0000) ==
            Walked(Address(0), [4, 0])
    ensures Translate(SHARED_TABLE, SHARED_SEGMENTS, pg, Access(false, false), 0).outcome == PageFault(0, 0)
    ensures Translate(m', SHARED_SEGMENTS, pg, Access(false, false), 0).outcome == NotBacked
  {
    hide Load, HasHva, Index, EntryAddr, Decide, Flag, NextTable, PdptEntry, Root, TwoBytes, AdUpdate, NonCanonical;
    assert !NonCanonical(false, 0) && !NonCanonical(false, 0x40_0000) by { NotLong(); }
    SharedLoads(m');
    SharedBacked();
    SharedAddresses();
    SharedDecisions(0);
    SharedDecisions(1);
    SharedDecisions(2);
    SharedDecisions(3);
  }

  lemma NotLong()
    ensures forall gla: bv64 {:trigger NonCanonical(false, gla)} :: !NonCanonical(false, gla)
  {
  }

  /** Exactly the hidden updates leave every later translation alone. */
  lemma AdHiddenIff(updates: Format, mode: PagingMode)
    ensures Hidden(updates, mode) <==>
            forall m: Ram, m': Ram, segs: seq<Segment>, pg: Paging, acc: Access, gla: bv64 |
              pg.mode == mode && SameButAd(updates, m, m') ::
              Translate(m, segs, pg, acc, gla) == Translate(m', segs, pg, acc, gla)
  {
    hide Translate, SameButAd;
    if Hidden(updates, mode) {
      forall m: Ram, m': Ram, segs: seq<Segment>, pg: Paging, acc: Access, gla: bv64 |
        pg.mode == mode && SameButAd(updates, m, m')
        ensures Translate(m, segs, pg, acc, gla) == Translate(m', segs, pg, acc, gla)
      {
        TranslateIgnoresAd(updates, m, m', segs, pg, acc, gla);
      }
    } else {
      var m' := SharedAfterwards();
      NarrowUpdatesShow(m', Paging(0, false, false, mode));
    }
  }

  lemma SharedAfterwards() returns (m': Ram)
    ensures AdUpdate(SHARED_TABLE, m', [4, 0], []) && SameButAd(Narrow, SHARED_TABLE, m')
  {
    m' := (x: bv64) => WithAd(SHARED_TABLE(x), x in [4, 0], x in []);
    AdUpdateKeepsRest(Narrow, SHARED_TABLE, m', [4, 0], []);
  }

  lemma RootsAligned(cr3: bv64)
    ensures PageAligned(Root(Legacy32, cr3)) && PageAligned(Root(FourLevel, cr3))
  {
  }

  lemma PdptAligned(pg: Paging, gla: bv64)
    ensures Aligned(Wide, PdptEntry(pg, gla))
  {
  }

  lemma {:induction false} VisitedAligned(m: Ram, segs: seq<Segment>, user: bool, acc: Access, f: Format, level: nat,
                                          table: bv64, gla: bv64)
    requires level <= 3 && PageAligned(table)
    ensures forall a <- WalkTable(m, segs, user, acc, f, level, table, gla).visited :: Aligned(f, a)
    decreases level
  {
    hide Index, Aligned, PageAligned, EntryAddr, Load, HasHva, Decide;
    var e := Load(m, f, EntryAddr(f, table, Index(f, level, gla)));
    EntryAligned(f, table, level, gla);
    DescendAligned(f, level, user, acc, e, gla);
    var d := Decide(f, level, user, acc, e, gla);
    if d.Descend? {
      VisitedAligned(m, segs, user, acc, f, level - 1, d.table, gla);
    }
  }

  lemma TranslateVisitsAligned(m: Ram, segs: seq<Segment>, pg: Paging, acc: Access, gla: bv64)
    ensures forall a <- Translate(m, segs, pg, acc, gla).visited :: Aligned(FormatOf(pg.mode), a)
  {
    hide Value, Index, Aligned, EntryAddr, Load, NextTable, PageAddress, Permits, Flag, PfErrorCode, NonCanonical,
      PdptEntry, PageAligned, WalkTable, HasHva, Root;
    RootsAligned(pg.cr3);
    match pg.mode
    case Flat =>
    case Legacy32 =>
      VisitedAligned(m, segs, pg.user, acc, Narrow, 1, Root(Legacy32, pg.cr3), gla);
    case Pae =>
      var e := Load(m, Wide, PdptEntry(pg, gla));
      NextTableAligned(e);
      VisitedAligned(m, segs, pg.user, acc, Wide, 1, NextTable(e), gla);
    case FourLevel =>
      VisitedAligned(m, segs, pg.user, acc, Wide, 3, Root(FourLevel, pg.cr3), gla);
  }

  // ---------------------------------------------------------------------------
  // The shift-and-mask expressions of the monitor's walk
  // ---------------------------------------------------------------------------

  /** `ptpshift` is 12 plus 10 or 9 bits for every level below; the four cases are written out. */
  function PtpIndex(f: Format, nlevels: nat, gla: bv64): bv64
    requires nlevels <= 3
  {
    if f.Narrow? then
      if nlevels == 0 then PtpBits(gla, 12, 0x3ff) else PtpBits(gla, 22, 0x3ff)
    else if nlevels == 0 then PtpBits(gla, 12, 0x1ff)
    else if nlevels == 1 then PtpBits(gla, 21, 0x1ff)
    else if nlevels == 2 then PtpBits(gla, 30, 0x1ff)
    else PtpBits(gla, 39, 0x1ff)
  }

  function PtpBits(gla: bv64, shift: bv64, mask: bv64): bv64
    requires shift < 64
  {
    (gla >> shift) & mask
  }

  function PdptSlot(root: bv64, gla: bv64): bv64 {
    EntryAddr(Wide, root, PtpBits(gla, 30, 0x3))
  }

  lemma PdptAgrees(pg: Paging, gla: bv64)
    ensures PdptSlot(Root(Pae, pg.cr3), gla) == PdptEntry(pg, gla)
  {
    hide EntryAddr, PtpBits, Field, Root;
    BitsAgree30Pdpt(gla);
  }

  function ClearTable(f: Format, ptpphys: bv64): bv64 {
    if f.Narrow? then ptpphys & !0xfff else ((ptpphys >> 12) << 24) >> 12
  }

  function Shift12(pte: bv64): bv64 { ((pte >> 12) << 24) >> 12 }
  function Shift21(pte: bv64): bv64 { ((pte >> 21) << 33) >> 12 }
  function Shift30(pte: bv64): bv64 { ((pte >> 30) << 42) >> 12 }
  function Shift39(pte: bv64): bv64 { ((pte >> 39) << 51) >> 12 }
  function Shift12Narrow(pte: bv64): bv64 { (pte >> 12) << 12 }
  function Shift22Narrow(pte: bv64): bv64 { (pte >> 22) << 22 }

  /** The low `ptpshift` bits, and in the wide format the upper 12 bits, shifted out and back. */
  function ShiftedFrame(f: Format, nlevels: nat, pte: bv64): bv64
    requires nlevels <= 3
  {
    if f.Narrow? then
      if nlevels == 0 then Shift12Narrow(pte) else Shift22Narrow(pte)
    else if nlevels == 0 then Shift12(pte)
    else if nlevels == 1 then Shift21(pte)
    else if nlevels == 2 then Shift30(pte)
    else Shift39(pte)
  }

  function PageSize(f: Format, nlevels: nat): bv64
    requires nlevels <= 3
  {
    if f.Narrow? then (if nlevels == 0 then 1 << 12 else 1 << 22)
    else if nlevels == 0 then 1 << 12
    else if nlevels == 1 then 1 << 21
    else if nlevels == 2 then 1 << 30
    else 1 << 39
  }

  lemma IndexAgrees(f: Format, level: nat, gla: bv64)
    requires level <= 3 && (f.Narrow? ==> level <= 1)
    ensures PtpIndex(f, level, gla) == Index(f, level, gla)
  {
    hide PtpBits, Field;
    BitsAgree12Narrow(gla);
    BitsAgree22Narrow(gla);
    BitsAgree12(gla);
    BitsAgree21(gla);
    BitsAgree30(gla);
    BitsAgree39(gla);
  }

  lemma BitsAgree12Narrow(gla: bv64)
    ensures PtpBits(gla, 12, 0x3ff) == Field(gla, 0x003f_f000, 12)
  {
    assert (gla >> 12) & 0x3ff == (gla & 0x003f_f000) >> 12;
  }

  lemma BitsAgree22Narrow(gla: bv64)
    ensures PtpBits(gla, 22, 0x3ff) == Field(gla, 0xffc0_0000, 22)
  {
    assert (gla >> 22) & 0x3ff == (gla & 0xffc0_0000) >> 22;
  }

  lemma BitsAgree12(gla: bv64)
    ensures PtpBits(gla, 12, 0x1ff) == Field(gla, 0x001f_f000, 12)
  {
    assert (gla >> 12) & 0x1ff == (gla & 0x001f_f000) >> 12;
  }

  lemma BitsAgree21(gla: bv64)
    ensures PtpBits(gla, 21, 0x1ff) == Field(gla, 0x3fe0_0000, 21)
  {
    assert (gla >> 21) & 0x1ff == (gla & 0x3fe0_0000) >> 21;
  }

  lemma BitsAgree30(gla: bv64)
    ensures PtpBits(gla, 30, 0x1ff) == Field(gla, 0x007f_c000_0000, 30)
  {
    assert (gla >> 30) & 0x1ff == (gla & 0x007f_c000_0000) >> 30;
  }

  lemma BitsAgree39(gla: bv64)
    ensures PtpBits(gla, 39, 0x1ff) == Field(gla, 0xff80_0000_0000, 39)
  {
    assert (gla >> 39) & 0x1ff == (gla & 0xff80_0000_0000) >> 39;
  }

  lemma BitsAgree30Pdpt(gla: bv64)
    ensures PtpBits(gla, 30, 0x3) == Field(gla, 0xc000_0000, 30)
  {
    assert (gla >> 30) & 0x3 == (gla & 0xc000_0000) >> 30;
  }

  lemma ClearRootAgrees(cr3: bv64)
    ensures ClearTable(Narrow, cr3) == Root(Legacy32, cr3)
    ensures ClearTable(Wide, cr3) == Root(FourLevel, cr3)
  {
  }

  predicate Fits(f: Format, pte: bv64) {
    f.Narrow? ==> pte & 0xffff_ffff_0000_0000 == 0
  }

  lemma LoadFits(m: Ram, f: Format, a: bv64)
    ensures Fits(f, Value(Load(m, f, a)))
  {
  }

  lemma ClearTableAgrees(f: Format, pte: bv64)
    requires Fits(f, pte)
    ensures ClearTable(f, pte) == pte & TABLE_MASK
  {
    ClearRootAgrees(pte);
    if f.Narrow? {
      NarrowTable(pte);
    }
  }

  lemma NarrowTable(pte: bv64)
    requires pte & 0xffff_ffff_0000_0000 == 0
    ensures pte & !0xfff == pte & TABLE_MASK
  {
  }

  lemma WideShifts(pte: bv64)
    ensures Shift12(pte) == Frame4K(pte) && Shift21(pte) == Frame2M(pte)
    ensures Shift30(pte) == Frame1G(pte) && Shift39(pte) == Frame512G(pte)
  {
  }

  lemma NarrowShift12(pte: bv64)
    requires Fits(Narrow, pte)
    ensures Shift12Narrow(pte) == Frame4K(pte)
  {
  }

  lemma NarrowShift22(pte: bv64)
    requires Fits(Narrow, pte)
    ensures Shift22Narrow(pte) == Frame4M(pte)
  {
  }

  lemma ShiftedFrameAgrees(f: Format, level: nat, pte: bv64)
    requires level <= 3 && (f.Narrow? ==> level <= 1)
    requires Fits(f, pte)
    ensures ShiftedFrame(f, level, pte) == FrameOf(f, level, pte)
  {
    hide Fits, Frame4K, Frame4M, Frame2M, Frame1G, Frame512G, Shift12, Shift21, Shift30, Shift39, Shift12Narrow, Shift22Narrow;
    WideShifts(pte);
    if f.Narrow? {
      NarrowShift12(pte);
      NarrowShift22(pte);
    }
  }

  lemma PageSizeAgrees(f: Format, level: nat)
    requires level <= 3
    ensures PageSize(f, level) - 1 == OffsetMask(f, level)
  {
  }

  /** Larger than 1 GB. */
  predicate TooLarge(f: Format, nlevels: nat)
    requires nlevels <= 3
  {
    PageSize(f, nlevels) > 1024 * 1024 * 1024
  }

  lemma TooLargeAgrees(f: Format, level: nat)
    requires level <= 3
    ensures TooLarge(f, level) <==> f.Wide? && level == 3
  {
  }

  lemma ClearAligned(f: Format, x: bv64)
    ensures PageAligned(ClearTable(f, x))
  {
    if f.Wide? {
      assert (((x >> 12) << 24) >> 12) & 0xfff == 0;
    }
  }

  // ---------------------------------------------------------------------------
  // Bookkeeping of the flags written so far
  // ---------------------------------------------------------------------------

  predicate FlagSet(b: bv8, flag: bv8) {
    b & flag != 0
  }

  lemma FlagIsLowByte(e: Entry)
    ensures Flag(e, PG_A) <==> FlagSet(e.b0, ACCESSED)
    ensures Flag(e, PG_M) <==> FlagSet(e.b0, DIRTY)
  {
    assert Value(e) & 0xff == e.b0 as bv64;
  }

  /** One byte of the bookkeeping: flags accumulate, and setting one twice changes nothing. */
  lemma WithAdTwice(b: bv8, accessed: bool, dirty: bool, accessed': bool, dirty': bool)
    ensures WithAd(WithAd(b, accessed, dirty), accessed', dirty') == WithAd(b, accessed || accessed', dirty || dirty')
    ensures FlagSet(b, ACCESSED) ==> WithAd(b, true, dirty) == WithAd(b, false, dirty)
    ensures FlagSet(b, DIRTY) ==> WithAd(b, accessed, true) == WithAd(b, accessed, false)
    ensures WithAd(b, false, false) == b
  {
  }

  lemma WithAdSets(b: bv8, dirty: bool)
    ensures FlagSet(WithAd(b, true, dirty), ACCESSED)
  {
  }

  lemma StoreSetsAd(m: Ram, f: Format, slot: bv64, a: bv64)
    ensures Store(m, f, slot, WithFlag(Load(m, f, slot), ACCESSED))(a) == WithAd(m(a), a == slot, false)
    ensures Store(m, f, slot, WithFlag(Load(m, f, slot), DIRTY))(a) == WithAd(m(a), false, a == slot)
  {
    hide Store, WithFlag, Load;
    StoreSetsFlag(m, f, slot, ACCESSED, a);
    StoreSetsFlag(m, f, slot, DIRTY, a);
    WithAdTwice(m(a), false, false, false, false);
  }

  lemma NothingUpdated(m: Ram)
    ensures AdUpdate(m, m, [], [])
  {
    forall a: bv64
      ensures m(a) == WithAd(m(a), a in [], a in [])
    {
      WithAdTwice(m(a), false, false, false, false);
    }
  }

  /** Accessing one more entry, whether or not its flag still had to be written. */
  lemma AccessEntry(f: Format, m0: Ram, m: Ram, m': Ram, visited: seq<bv64>, slot: bv64)
    requires AdUpdate(m0, m, visited, [])
    requires if FlagSet(m(slot), ACCESSED) then m' == m
             else m' == Store(m, f, slot, WithFlag(Load(m, f, slot), ACCESSED))
    ensures AdUpdate(m0, m', visited + [slot], [])
  {
    hide FlagSet, WithAd, Store, WithFlag, Load;
    forall a: bv64
      ensures m'(a) == WithAd(m0(a), a in visited + [slot], a in [])
    {
      WithAdTwice(m0(a), a in visited, false, a == slot, false);
      WithAdTwice(m(a), false, false, false, false);
      StoreSetsAd(m, f, slot, a);
      assert a in visited + [slot] <==> a in visited || a == slot;
    }
  }

  /** Dirtying the last entry accessed. */
  lemma DirtyEntry(f: Format, m0: Ram, m: Ram, m': Ram, visited: seq<bv64>, slot: bv64)
    requires AdUpdate(m0, m, visited, [])
    requires if FlagSet(m(slot), DIRTY) then m' == m
             else m' == Store(m, f, slot, WithFlag(Load(m, f, slot), DIRTY))
    ensures AdUpdate(m0, m', visited, [slot])
  {
    hide FlagSet, WithAd, Store, WithFlag, Load;
    forall a: bv64
      ensures m'(a) == WithAd(m0(a), a in visited, a in [slot])
    {
      WithAdTwice(m0(a), a in visited, false, false, a == slot);
      WithAdTwice(m(a), false, false, false, false);
      StoreSetsAd(m, f, slot, a);
    }
  }

  /** Two passes in a row leave what one complete pass leaves. */
  lemma UpdateTwice(m0: Ram, m1: Ram, m2: Ram, visited: seq<bv64>, dirty: seq<bv64>)
    requires AdUpdate(m0, m1, visited, []) && AdUpdate(m1, m2, visited, dirty)
    ensures AdUpdate(m0, m2, visited, dirty)
  {
    hide WithAd;
    forall a: bv64
      ensures m2(a) == WithAd(m0(a), a in visited, a in dirty)
    {
      WithAdTwice(m0(a), a in visited, false, a in visited, a in dirty);
    }
  }

  /** How a walk goes on from an entry at `slot` with decision `d`. */
  ghost predicate DecidedWalk(m0: Ram, segs: seq<Segment>, user: bool, acc: Access, f: Format, level: nat,
                              table: bv64, gla: bv64, slot: bv64, d: Decision)
    requires level <= 3 && (d.Descend? ==> level > 0)
  {
    var w := WalkTable(m0, segs, user, acc, f, level, table, gla);
    match d
    case Deny(code) => w == Walked(PageFault(code, gla), [])
    case Reserved(code) => w == Walked(PageFault(code, gla), [slot])
    case Page(gpa) => w == Walked(Address(gpa), [slot])
    case Descend(next) => w == Prepend([slot], WalkTable(m0, segs, user, acc, f, level - 1, next, gla))
  }

  function Prepend(visited: seq<bv64>, w: Walked): Walked {
    Walked(w.outcome, visited + w.visited)
  }

  /** The walk from an entry, case by case as the loop body tells them apart. */
  lemma DecidedCases(m0: Ram, segs: seq<Segment>, user: bool, acc: Access, f: Format, level: nat,
                     table: bv64, gla: bv64, slot: bv64, pte: Entry)
    requires level <= 3 && (f.Narrow? ==> level <= 1) && Fits(f, Value(pte))
    requires DecidedWalk(m0, segs, user, acc, f, level, table, gla, slot, Decide(f, level, user, acc, pte, gla))
    ensures
      var w := WalkTable(m0, segs, user, acc, f, level, table, gla);
      if !Permits(pte, user, acc.write) then w == Walked(PageFault(PfErrorCode(user, acc, false, pte), gla), [])
      else if level > 0 && Flag(pte, PG_PS) then
        if f.Wide? && level == 3 then w == Walked(PageFault(PfErrorCode(user, acc, true, pte), gla), [slot])
        else w == Walked(Address(PageAddress(f, level, pte, gla)), [slot])
      else if level == 0 then w == Walked(Address(PageAddress(f, level, pte, gla)), [slot])
      else w == Prepend([slot], WalkTable(m0, segs, user, acc, f, level - 1, ClearTable(f, Value(pte)), gla))
  {
    hide Permits, Flag, Value, PageAddress, PfErrorCode, WalkTable, Fits, ClearTable, NextTable;
    ClearedTable(f, pte);
  }

  lemma NotBackedWalk(m0: Ram, segs: seq<Segment>, user: bool, acc: Access, f: Format, level: nat,
                      table: bv64, gla: bv64)
    requires level <= 3 && !HasHva(segs, table, PAGE_SIZE)
    ensures WalkTable(m0, segs, user, acc, f, level, table, gla) == Walked(NotBacked, [])
  {
  }

  /** The entry in the updated memory is at the right place and means what it did before. */
  lemma SlotFacts(m0: Ram, m: Ram, user: bool, acc: Access, f: Format, level: nat, table: bv64, gla: bv64,
                  visited: seq<bv64>)
    requires level <= 3 && (f.Narrow? ==> level <= 1) && PageAligned(table)
    requires AdUpdate(m0, m, visited, []) && (forall a <- visited :: Aligned(f, a))
    ensures
      var slot := EntryAddr(f, table, PtpIndex(f, level, gla));
      && slot == EntryAddr(f, table, Index(f, level, gla)) && Aligned(f, slot)
      && Decide(f, level, user, acc, Load(m, f, slot), gla) == Decide(f, level, user, acc, Load(m0, f, slot), gla)
  {
    hide Aligned, PageAligned, PtpIndex, Index, EntryAddr, Decide, Load, AdUpdate, SameButAd, SameEntryButAd;
    var slot := EntryAddr(f, table, PtpIndex(f, level, gla));
    IndexAgrees(f, level, gla);
    EntryAligned(f, table, level, gla);
    AdUpdateKeepsRest(f, m0, m, visited, []);
    LoadSameButAd(f, m0, m, slot);
    SameDecision(f, level, user, acc, Load(m0, f, slot), Load(m, f, slot), gla);
  }

  lemma WalkFromSlot(m0: Ram, segs: seq<Segment>, user: bool, acc: Access, f: Format, level: nat, table: bv64, gla: bv64)
    requires level <= 3 && HasHva(segs, table, PAGE_SIZE)
    ensures var slot := EntryAddr(f, table, Index(f, level, gla));
            DecidedWalk(m0, segs, user, acc, f, level, table, gla, slot,
                        Decide(f, level, user, acc, Load(m0, f, slot), gla))
  {
    hide Index, EntryAddr, Load, Decide, HasHva;
  }

  lemma EntryFacts(m: Ram, f: Format, slot: bv64)
    ensures
      var e := Load(m, f, slot);
      && Fits(f, Value(e))
      && (Flag(e, PG_A) <==> FlagSet(m(slot), ACCESSED))
      && (Flag(e, PG_M) <==> FlagSet(m(slot), DIRTY))
  {
    assert Load(m, f, slot).b0 == m(slot);
    hide Load, Value, Fits, Flag, FlagSet;
    LoadFits(m, f, slot);
    FlagIsLowByte(Load(m, f, slot));
  }

  lemma ComposedAddress(f: Format, level: nat, e: Entry, gla: bv64)
    requires level <= 3 && (f.Narrow? ==> level <= 1) && Fits(f, Value(e))
    ensures Splice(ShiftedFrame(f, level, Value(e)), Masked(gla, PageSize(f, level) - 1)) == PageAddress(f, level, e, gla)
  {
    hide Fits, Value, ShiftedFrame, FrameOf, PageSize, OffsetMask, Splice, Masked;
    ShiftedFrameAgrees(f, level, Value(e));
    PageSizeAgrees(f, level);
  }

  lemma ClearedTable(f: Format, e: Entry)
    requires Fits(f, Value(e))
    ensures ClearTable(f, Value(e)) == NextTable(e)
  {
    hide Fits, Value, ClearTable;
    ClearTableAgrees(f, Value(e));
  }

  // ---------------------------------------------------------------------------
  // The monitor's walk
  // ---------------------------------------------------------------------------

  /** How one pass over the tables ends. */
  datatype Pass = Done(outcome: Outcome) | Restart

  /** What one pass leaves behind: its own outcome and all flags, or Accessed flags only and a
      leaf that was not accessed before. */
  ghost predicate PassMeets(r: Pass, w: Walked, acc: Access, m: Ram, m': Ram) {
    match r
    case Done(o) => o == w.outcome && AdUpdate(m, m', w.visited, Dirtied(acc, w))
    case Restart =>
      && acc.write && w.outcome.Address? && w.visited != []
      && AdUpdate(m, m', w.visited, [])
      && !FlagSet(m(w.visited[|w.visited| - 1]), ACCESSED)
  }

  lemma PrependNothing(w: Walked)
    ensures Prepend([], w) == w
  {
  }

  lemma PrependMore(visited: seq<bv64>, slot: bv64, rest: Walked)
    ensures Prepend(visited, Prepend([slot], rest)) == Prepend(visited + [slot], rest)
  {
    assert visited + ([slot] + rest.visited) == (visited + [slot]) + rest.visited;
  }

  lemma StopMeets(o: Outcome, visited: seq<bv64>, rest: Walked, acc: Access, m0: Ram, m: Ram)
    requires o == rest.outcome && !o.Address? && AdUpdate(m0, m, visited + rest.visited, [])
    ensures PassMeets(Done(o), Prepend(visited, rest), acc, m0, m)
  {
  }

  lemma LeafWalk(visited: seq<bv64>, slot: bv64, gpa: bv64)
    ensures
      var w := Prepend(visited, Walked(Address(gpa), [slot]));
      && w.outcome == Address(gpa) && w.visited == visited + [slot]
      && w.visited[|w.visited| - 1] == slot && w.visited[..|w.visited| - 1] == visited
  {
  }

  datatype Visit = Stop(outcome: Outcome) | Leaf | Next(root: bv64)

  /** `pte` is the leaf as first read; marking it accessed has changed it in memory if it was clear. */
  ghost predicate LeafLoaded(f: Format, m: Ram, m': Ram, slot: bv64, pte: Entry) {
    && pte == Load(m, f, slot)
    && if Flag(pte, PG_A) then m' == m else m' == Store(m, f, slot, WithFlag(pte, ACCESSED))
  }

  class Vm {
    const segs: seq<Segment>
    var ram: Ram

    constructor (segs: seq<Segment>, ram: Ram)
      ensures this.segs == segs && this.ram == ram
    {
      this.segs, this.ram := segs, ram;
    }

    method Gpa2Hva(gpa: bv64, len: bv64) returns (found: bool)
      ensures found == HasHva(segs, gpa, len)
    {
      hide InSegment;
      for i := 0 to |segs|
        invariant forall k | 0 <= k < i :: !InSegment(segs[k], gpa, len)
      {
        if InSegment(segs[i], gpa, len) {
          return true;
        }
      }
      return false;
    }

    method CmpSet(f: Format, a: bv64, expected: Entry, e: Entry) returns (ok: bool)
      modifies `ram
      ensures ok == (Load(old(ram), f, a) == expected)
      ensures ram == if ok then Store(old(ram), f, a, e) else old(ram)
    {
      ok := Load(ram, f, a) == expected;
      if ok {
        ram := Store(ram, f, a, e);
      }
    }

    /** Sets Accessed by compare-and-set; with no other writer the compare cannot fail. */
    method MarkAccessed(f: Format, slot: bv64, pte: Entry, ghost m0: Ram, ghost visited: seq<bv64>)
      requires AdUpdate(m0, ram, visited, []) && pte == Load(ram, f, slot)
      requires Flag(pte, PG_A) <==> FlagSet(ram(slot), ACCESSED)
      modifies `ram
      ensures AdUpdate(m0, ram, visited + [slot], []) && LeafLoaded(f, old(ram), ram, slot, pte)
    {
      hide Load, Value, Flag, FlagSet, AdUpdate, Store, WithFlag;
      if !Flag(pte, PG_A) {
        var ok := CmpSet(f, slot, pte, WithFlag(pte, ACCESSED));
        if !ok {
          assert false;
        }
      }
      AccessEntry(f, m0, old(ram), ram, visited, slot);
    }

    /** The body of the table loop at one level: reads the entry, checks it, marks it accessed. */
    method VisitLevel(f: Format, nlevels: nat, table: bv64, user: bool, acc: Access, gla: bv64,
                      ghost m0: Ram, ghost visited: seq<bv64>)
      returns (v: Visit, slot: bv64, pte: Entry)
      requires nlevels <= 3 && (f.Narrow? ==> nlevels <= 1)
      requires PageAligned(table)
      requires AdUpdate(m0, ram, visited, []) && forall a <- visited :: Aligned(f, a)
      modifies `ram
      ensures
        var w := WalkTable(m0, segs, user, acc, f, nlevels, table, gla);
        match v
           case Stop(o) => w.outcome == o && !o.Address? && AdUpdate(m0, ram, visited + w.visited, [])
           case Leaf =>
             && AdUpdate(m0, ram, visited + [slot], [])
             && w == Walked(Address(PageAddress(f, nlevels, pte, gla)), [slot]) && Aligned(f, slot)
             && LeafLoaded(f, old(ram), ram, slot, pte)
           case Next(root) =>
             && AdUpdate(m0, ram, visited + [slot], [])
             && nlevels > 0 && PageAligned(ClearTable(f, root)) && Aligned(f, slot)
             && w == Prepend([slot], WalkTable(m0, segs, user, acc, f, nlevels - 1, ClearTable(f, root), gla))
    {
      hide Aligned, PageAligned, PtpIndex, Index, EntryAddr, Load, Value, Fits, Flag, FlagSet, AdUpdate, HasHva,
        ClearTable, PageSize, PageAddress, NextTable, PfErrorCode, Store, WithFlag, Permits,
        WalkTable, LeafLoaded, TooLarge, Decide, DecidedWalk;
      slot, pte := 0, Entry(0, 0, 0, 0, 0, 0, 0, 0);
      assert visited + [] == visited;
      var found := Gpa2Hva(table, PAGE_SIZE);
      if !found {
        NotBackedWalk(m0, segs, user, acc, f, nlevels, table, gla);
        return Stop(NotBacked), slot, pte;
      }
      slot := EntryAddr(f, table, PtpIndex(f, nlevels, gla));
      pte := Load(ram, f, slot);
      SlotFacts(m0, ram, user, acc, f, nlevels, table, gla, visited);
      WalkFromSlot(m0, segs, user, acc, f, nlevels, table, gla);
      EntryFacts(ram, f, slot);
      DecidedCases(m0, segs, user, acc, f, nlevels, table, gla, slot, pte);
      if !Permits(pte, user, acc.write) {
        return Stop(PageFault(PfErrorCode(user, acc, false, pte), gla)), slot, pte;
      }
      MarkAccessed(f, slot, pte, m0, visited);
      TooLargeAgrees(f, nlevels);
      if nlevels > 0 && Flag(pte, PG_PS) {
        if TooLarge(f, nlevels) {
          return Stop(PageFault(PfErrorCode(user, acc, true, pte), gla)), slot, pte;
        }
        return Leaf, slot, pte;
      }
      if nlevels == 0 {
        return Leaf, slot, pte;
      }
      ClearAligned(f, Value(pte));
      return Next(Value(pte)), slot, pte;
    }

    /** One pass of the table loop, from level `top` down. */
    method WalkLevels(f: Format, top: nat, root: bv64, user: bool, acc: Access, gla: bv64) returns (r: Pass)
      requires top <= 3 && (f.Narrow? ==> top <= 1)
      modifies `ram
      ensures PassMeets(r, WalkTable(old(ram), segs, user, acc, f, top, ClearTable(f, root), gla), acc, old(ram), ram)
    {
      hide Aligned, PageAligned, Load, Value, Flag, FlagSet, AdUpdate, ClearTable, ShiftedFrame, PageSize, Splice,
        PageAddress, Masked, WalkTable, LeafLoaded, PassMeets, Prepend;
      ghost var m0 := ram;
      ghost var visited: seq<bv64> := [];
      ghost var w := WalkTable(m0, segs, user, acc, f, top, ClearTable(f, root), gla);
      PrependNothing(w);
      NothingUpdated(m0);
      ClearAligned(f, root);
      var table, nlevels := root, top + 1;
      while true
        invariant 1 <= nlevels <= top + 1
        invariant AdUpdate(m0, ram, visited, [])
        invariant forall a <- visited :: Aligned(f, a)
        invariant PageAligned(ClearTable(f, table))
        invariant w == Prepend(visited, WalkTable(m0, segs, user, acc, f, nlevels - 1, ClearTable(f, table), gla))
        decreases nlevels
      {
        nlevels := nlevels - 1;
        ghost var before := ram;
        var v, slot, pte := VisitLevel(f, nlevels, ClearTable(f, table), user, acc, gla, m0, visited);
        match v {
          case Stop(o) =>
            StopMeets(o, visited, WalkTable(m0, segs, user, acc, f, nlevels, ClearTable(f, table), gla), acc, m0, ram);
            return Done(o);
          case Leaf =>
            LeafWalk(visited, slot, PageAddress(f, nlevels, pte, gla));
            r := FinishLeaf(f, nlevels, slot, pte, acc, gla, m0, before, w);
            return;
          case Next(next) =>
            PrependMore(visited, slot, WalkTable(m0, segs, user, acc, f, nlevels - 1, ClearTable(f, next), gla));
            visited := visited + [slot];
            table := next;
        }
      }
    }

    /** Everything between the restart label and the next failed compare. */
    method OnePass(pg: Paging, acc: Access, gla: bv64) returns (r: Pass)
      modifies `ram
      ensures PassMeets(r, Translate(old(ram), segs, pg, acc, gla), acc, old(ram), ram)
    {
      hide NonCanonical, WalkTable, Load, Flag, Value, ClearTable, Root, PdptEntry, PdptSlot, PfErrorCode, NextTable,
        AdUpdate, HasHva, FlagSet, Fits;
      NothingUpdated(ram);
      if NonCanonical(pg.long64, gla) {
        return Done(ProtectionFault);
      }
      ClearRootAgrees(pg.cr3);
      match pg.mode {
        case Flat =>
          return Done(Address(gla));
        case Legacy32 =>
          r := WalkLevels(Narrow, 1, pg.cr3, pg.user, acc, gla);
        case Pae =>
          var found := Gpa2Hva(Root(Pae, pg.cr3), 32);
          if !found {
            return Done(NotBacked);
          }
          PdptAgrees(pg, gla);
          var pte := Load(ram, Wide, PdptSlot(Root(Pae, pg.cr3), gla));
          if !Flag(pte, PG_V) {
            return Done(PageFault(PfErrorCode(pg.user, acc, false, pte), gla));
          }
          EntryFacts(ram, Wide, PdptEntry(pg, gla));
          ClearedTable(Wide, pte);
          r := WalkLevels(Wide, 1, Value(pte), pg.user, acc, gla);
        case FourLevel =>
          r := WalkLevels(Wide, 3, pg.cr3, pg.user, acc, gla);
      }
    }

    /** The whole translation: it agrees with the architectural walk of the memory it started from,
        marks exactly the entries that walk visits, dirties exactly the leaf of a write, and takes
        at most two passes. */
    method Gla2Gpa(pg: Paging, acc: Access, gla: bv64) returns (o: Outcome, passes: nat)
      modifies `ram
      ensures var w := Translate(old(ram), segs, pg, acc, gla);
              o == w.outcome && AdUpdate(old(ram), ram, w.visited, Dirtied(acc, w))
      ensures SameButAd(FormatOf(pg.mode), old(ram), ram)
      ensures 1 <= passes <= 2
    {
      hide Translate, AdUpdate, FlagSet, SameButAd, Aligned;
      ghost var m0 := ram;
      ghost var w := Translate(m0, segs, pg, acc, gla);
      TranslateVisitsAligned(m0, segs, pg, acc, gla);
      var r := Restart;
      passes := 0;
      while r.Restart?
        invariant passes <= 2
        invariant if passes == 0 then r.Restart? && ram == m0 else PassMeets(r, w, acc, m0, ram)
        invariant passes == 2 ==> r.Done?
        decreases 2 - passes
      {
        ghost var m1 := ram;
        if passes == 1 {
          AdUpdateKeepsRest(FormatOf(pg.mode), m0, m1, w.visited, []);
          TranslateIgnoresAd(FormatOf(pg.mode), m0, m1, segs, pg, acc, gla);
          AccessedNow(m0, m1, w.visited, [], |w.visited| - 1);
        }
        r := OnePass(pg, acc, gla);
        if passes == 1 {
          UpdateTwice(m0, m1, ram, w.visited, Dirtied(acc, w));
        }
        passes := passes + 1;
      }
      AdUpdateKeepsRest(FormatOf(pg.mode), m0, ram, w.visited, Dirtied(acc, w));
      o := r.outcome;
    }

    /** Sets Dirty by compare-and-set against the entry as first read, then forms the address. */
    method FinishLeaf(f: Format, nlevels: nat, slot: bv64, pte: Entry, acc: Access, gla: bv64,
                      ghost m0: Ram, ghost before: Ram, ghost w: Walked) returns (r: Pass)
      requires nlevels <= 3 && (f.Narrow? ==> nlevels <= 1)
      requires w.outcome == Address(PageAddress(f, nlevels, pte, gla))
      requires w.visited != [] && w.visited[|w.visited| - 1] == slot
      requires AdUpdate(m0, ram, w.visited, []) && LeafLoaded(f, before, ram, slot, pte)
      requires AdUpdate(m0, before, w.visited[..|w.visited| - 1], [])
      modifies `ram
      ensures PassMeets(r, w, acc, m0, ram)
    {
      hide Load, Value, Flag, FlagSet, AdUpdate, Store, WithFlag, ShiftedFrame, PageSize, Splice, PageAddress, Masked,
        Fits, WithAd;
      EntryFacts(before, f, slot);
      EntryFacts(ram, f, slot);
      ComposedAddress(f, nlevels, pte, gla);
      if acc.write && !Flag(pte, PG_M) {
        var ok := CmpSet(f, slot, pte, WithFlag(pte, DIRTY));
        if !ok {
          NotAccessedBefore(m0, before, w.visited[..|w.visited| - 1], slot);
          return Restart;
        }
      }
      if acc.write {
        if Flag(pte, PG_M) && !Flag(pte, PG_A) {
          StoreSetsAd(before, f, slot, slot);
          FlagsStaySet(before(slot), true, false);
        }
        DirtyEntry(f, m0, old(ram), ram, w.visited, slot);
      }
      r := Done(Address(Splice(ShiftedFrame(f, nlevels, Value(pte)), Masked(gla, PageSize(f, nlevels) - 1))));
    }
  }

  lemma AccessedNow(m0: Ram, m: Ram, visited: seq<bv64>, dirty: seq<bv64>, k: nat)
    requires AdUpdate(m0, m, visited, dirty) && k < |visited|
    ensures FlagSet(m(visited[k]), ACCESSED)
  {
    var a := visited[k];
    assert m(a) == WithAd(m0(a), true, a in dirty);
    WithAdSets(m0(a), a in dirty);
  }

  /** A flag that is still clear after some updates was clear before them. */
  lemma NotAccessedBefore(m0: Ram, m: Ram, visited: seq<bv64>, slot: bv64)
    requires AdUpdate(m0, m, visited, []) && !FlagSet(m(slot), ACCESSED)
    ensures !FlagSet(m0(slot), ACCESSED)
  {
    FlagsStaySet(m0(slot), slot in visited, false);
  }

  lemma FlagsStaySet(b: bv8, accessed: bool, dirty: bool)
    ensures FlagSet(b, ACCESSED) ==> FlagSet(WithAd(b, accessed, dirty), ACCESSED)
    ensures FlagSet(b, DIRTY) ==> FlagSet(WithAd(b, accessed, dirty), DIRTY)
  {
  }
}
