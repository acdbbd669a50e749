/** What the guest translation means in terms of the bits of page-table entries: which entries are read,
    what lets a walk go on, and every bit of the error code it injects. */
module PagingBits {
  import opened Wrappers
  import opened GuestPaging

  // ---------------------------------------------------------------------------
  // Fields of entries and addresses, as bits
  // ---------------------------------------------------------------------------

  /** The entry is present, and allows user accesses and writes if these are asked for. */
  predicate Allows(e: Entry, user: bool, write: bool) {
    e.b0 & 0x01 != 0 && (user ==> e.b0 & 0x04 != 0) && (write ==> e.b0 & 0x02 != 0)
  }

  predicate Present(e: Entry) {
    e.b0 & 0x01 != 0
  }

  /** The entry maps a large page. */
  predicate Large(e: Entry) {
    e.b0 & 0x80 != 0
  }

  lemma LowByte(e: Entry)
    ensures Value(e) & 0xff == e.b0 as bv64
  {
  }

  lemma LowFlags(e: Entry)
    ensures Flag(e, PG_V) <==> e.b0 & 0x01 != 0
    ensures Flag(e, PG_RW) <==> e.b0 & 0x02 != 0
    ensures Flag(e, PG_U) <==> e.b0 & 0x04 != 0
    ensures Flag(e, PG_PS) <==> e.b0 & 0x80 != 0
  {
    LowByte(e);
    var v, b := Value(e), e.b0;
    hide Value;
    BitsOfByte(v, b);
  }

  lemma BitsOfByte(v: bv64, b: bv8)
    requires v & 0xff == b as bv64
    ensures v & 0x01 != 0 <==> b & 0x01 != 0
    ensures v & 0x02 != 0 <==> b & 0x02 != 0
    ensures v & 0x04 != 0 <==> b & 0x04 != 0
    ensures v & 0x80 != 0 <==> b & 0x80 != 0
  {
  }

  lemma PermitsBits(e: Entry, user: bool, write: bool)
    ensures Permits(e, user, write) <==> Allows(e, user, write)
    ensures Flag(e, PG_V) <==> Present(e)
    ensures Flag(e, PG_PS) <==> Large(e)
  {
    LowFlags(e);
    hide Flag;
  }

  /** Entries lie in memory least significant byte first, in four or eight bytes. */
  lemma LittleEndian(m: Ram, f: Format, a: bv64)
    ensures
      var v := Value(Load(m, f, a));
      && v & 0xff == m(a) as bv64 && (v >> 8) & 0xff == m(a + 1) as bv64
      && (v >> 16) & 0xff == m(a + 2) as bv64 && (v >> 24) & 0xff == m(a + 3) as bv64
      && if f.Narrow? then v >> 32 == 0
         else
           && (v >> 32) & 0xff == m(a + 4) as bv64 && (v >> 40) & 0xff == m(a + 5) as bv64
           && (v >> 48) & 0xff == m(a + 6) as bv64 && v >> 56 == m(a + 7) as bv64
  {
  }

  /** Canonical addresses repeat bit 47 in all higher bits. */
  lemma NonCanonicalIff(long64: bool, gla: bv64)
    ensures NonCanonical(long64, gla) <==> long64 && 0x8000_0000_0000 <= gla < 0xffff_8000_0000_0000
  {
  }

  /** Entries are four or eight bytes apart: entry 5 of a table at 0x1000. */
  lemma FifthEntry()
    ensures EntryAddr(Narrow, 0x1000, 0) == 0x1000 && EntryAddr(Narrow, 0x1000, 5) == 0x1014
    ensures EntryAddr(Wide, 0x1000, 0) == 0x1000 && EntryAddr(Wide, 0x1000, 5) == 0x1028
  {
  }

  /** The root of 2-level and 4-level tables is the page that CR3 points to, with 52 address bits in the
      latter case; the four PAE entries lie at its low 32 bits without the last five. */
  lemma RootIs(cr3: bv64)
    ensures Root(Legacy32, cr3) == (cr3 >> 12) << 12
    ensures Root(FourLevel, cr3) == ((cr3 << 12) >> 24) << 12
    ensures Root(Pae, cr3) == ((cr3 << 32) >> 37) << 5
  {
    LowCleared(cr3);
    HighCleared(cr3);
    HalfCleared(cr3);
  }

  lemma LowCleared(x: bv64)
    ensures x & !0xfff == (x >> 12) << 12
  {
  }

  lemma HighCleared(x: bv64)
    ensures x & 0x000f_ffff_ffff_f000 == ((x << 12) >> 24) << 12
  {
  }

  lemma HalfCleared(x: bv64)
    ensures x & 0xffff_ffe0 == ((x << 32) >> 37) << 5
  {
  }

  lemma PdptEntryIs(pg: Paging, gla: bv64)
    ensures PdptEntry(pg, gla) == EntryAddr(Wide, Root(Pae, pg.cr3), (gla >> 30) & 3)
  {
    hide EntryAddr, Root;
    BitsAgree30Pdpt(gla);
  }

  /** The segment [0x1000, 0x2000) holds itself and its last byte, but no byte before or after it; without
      an object it holds nothing. */
  lemma SegmentEnds(g: Segment)
    requires g.base == 0x1000 && g.len == 0x1000
    ensures g.hasObject ==>
              && InSegment(g, 0x1000, 0x1000) && InSegment(g, 0x1fff, 1)
              && !InSegment(g, 0xfff, 1) && !InSegment(g, 0x1000, 0x1001) && !InSegment(g, 0x2000, 1)
    ensures !g.hasObject ==> !InSegment(g, 0x1000, 0x1000)
  {
  }

  // ---------------------------------------------------------------------------
  // The walk of one table
  // ---------------------------------------------------------------------------

  /** The addresses of the entries that lead to `gla`, from the root down, whatever their flags. */
  function EntryPath(m: Ram, f: Format, level: nat, table: bv64, gla: bv64): (path: seq<bv64>)
    requires level <= 3
    ensures |path| == level + 1
    decreases level
  {
    var a := EntryAddr(f, table, Index(f, level, gla));
    [a] + if level == 0 then [] else EntryPath(m, f, level - 1, NextTable(Load(m, f, a)), gla)
  }

  predicate Bit(code: bv32, mask: bv32) {
    code & mask != 0
  }

  /** The bits of an error code that describe the access. */
  predicate AccessBits(code: bv32, user: bool, acc: Access) {
    && (Bit(code, 0x02) <==> acc.write) && (Bit(code, 0x04) <==> user) && (Bit(code, 0x10) <==> acc.exec)
    && !Bit(code, 0xffff_ffe0)
  }

  /** The walk has gone through the first `n` entries of the path: each allows the access, and only the last
      may map a large page. */
  ghost predicate Passed(m: Ram, f: Format, path: seq<bv64>, n: nat, user: bool, write: bool) {
    && n <= |path| && (forall k | 0 <= k < n :: Allows(Load(m, f, path[k]), user, write))
    && (forall k | 0 <= k < n - 1 :: !Large(Load(m, f, path[k])))
  }

  /** What the outcome says about the entries, for a walk that begins at `level`. */
  ghost predicate Explained(m: Ram, f: Format, level: nat, path: seq<bv64>, n: nat, user: bool, acc: Access, gla: bv64,
                            o: Outcome)
    requires level <= 3 && |path| == level + 1 && n <= |path|
  {
    match o
    case Address(gpa) =>
      && n > 0 && (n == level + 1 || Large(Load(m, f, path[n - 1])))
      && gpa == PageAddress(f, level + 1 - n, Load(m, f, path[n - 1]), gla)
    case PageFault(code, cr2) =>
      && cr2 == gla && AccessBits(code, user, acc)
      && if Bit(code, 0x08) then n == 1 && level == 3 && Large(Load(m, f, path[0])) && Bit(code, 0x01)
         else
           && n <= level && (n > 0 ==> !Large(Load(m, f, path[n - 1])))
           && !Allows(Load(m, f, path[n]), user, acc.write)
           && (Bit(code, 0x01) <==> Present(Load(m, f, path[n])))
    case NotBacked => n <= level && (n > 0 ==> !Large(Load(m, f, path[n - 1])))
    case ProtectionFault => false
  }

  lemma CodeBits(user: bool, acc: Access, reserved: bool, e: Entry)
    ensures
      var code := PfErrorCode(user, acc, reserved, e);
      && AccessBits(code, user, acc) && (Bit(code, 0x01) <==> Flag(e, PG_V)) && (Bit(code, 0x08) <==> reserved)
  {
    hide Flag;
  }

  /** The first `n` entries of the path have been passed, and the outcome is explained by them. */
  ghost predicate Meaning(m: Ram, f: Format, level: nat, path: seq<bv64>, user: bool, acc: Access, gla: bv64, w: Walked)
    requires level <= 3 && |path| == level + 1
  {
    var n := |w.visited|;
    && n <= level + 1 && w.visited == path[..n]
    && Passed(m, f, path, n, user, acc.write) && Explained(m, f, level, path, n, user, acc, gla, w.outcome)
  }

  lemma {:induction false} WalkMeans(m: Ram, segs: seq<Segment>, user: bool, acc: Access, f: Format, level: nat, table: bv64,
                                     gla: bv64)
    requires level <= 3
    ensures Meaning(m, f, level, EntryPath(m, f, level, table, gla), user, acc, gla,
                    WalkTable(m, segs, user, acc, f, level, table, gla))
    decreases level
  {
    hide Load, HasHva, Index, EntryAddr, Decide, NextTable, Meaning;
    var a := EntryAddr(f, table, Index(f, level, gla));
    var d := Decide(f, level, user, acc, Load(m, f, a), gla);
    WalkUnfolds(m, segs, user, acc, f, level, table, gla);
    if HasHva(segs, table, PAGE_SIZE) && d.Descend? {
      DescendMeans(f, level, user, acc, Load(m, f, a), gla);
      WalkMeans(m, segs, user, acc, f, level - 1, d.table, gla);
      PathUnfolds(m, f, level, table, gla);
      hide WalkTable, EntryPath;
      MeaningOn(m, f, level, a, EntryPath(m, f, level - 1, d.table, gla), user, acc, gla,
                WalkTable(m, segs, user, acc, f, level - 1, d.table, gla));
    } else {
      hide WalkTable;
      StopMeans(m, f, level, EntryPath(m, f, level, table, gla), user, acc, gla,
                if HasHva(segs, table, PAGE_SIZE) then Some(d) else None);
    }
  }

  lemma PathUnfolds(m: Ram, f: Format, level: nat, table: bv64, gla: bv64)
    requires 1 <= level <= 3
    ensures
      var a := EntryAddr(f, table, Index(f, level, gla));
      EntryPath(m, f, level, table, gla) == [a] + EntryPath(m, f, level - 1, NextTable(Load(m, f, a)), gla)
  {
    hide Load, Index, EntryAddr, NextTable;
  }

  lemma WalkUnfolds(m: Ram, segs: seq<Segment>, user: bool, acc: Access, f: Format, level: nat, table: bv64, gla: bv64)
    requires level <= 3
    ensures
      var a := EntryAddr(f, table, Index(f, level, gla));
      var d := Decide(f, level, user, acc, Load(m, f, a), gla);
      var w := WalkTable(m, segs, user, acc, f, level, table, gla);
      if HasHva(segs, table, PAGE_SIZE) && d.Descend? then
        var rest := WalkTable(m, segs, user, acc, f, level - 1, d.table, gla);
        w == Walked(rest.outcome, [a] + rest.visited)
      else w == Stopped(a, gla, if HasHva(segs, table, PAGE_SIZE) then Some(d) else None)
  {
    hide Load, HasHva, Index, EntryAddr, Decide;
  }

  /** How a walk ends at the first entry of its path, or before it. */
  function Stopped(a: bv64, gla: bv64, d: Option<Decision>): Walked
    requires d.Some? ==> !d.value.Descend?
  {
    match d
    case None => Walked(NotBacked, [])
    case Some(Deny(code)) => Walked(PageFault(code, gla), [])
    case Some(Reserved(code)) => Walked(PageFault(code, gla), [a])
    case Some(Page(gpa)) => Walked(Address(gpa), [a])
  }

  lemma StopMeans(m: Ram, f: Format, level: nat, path: seq<bv64>, user: bool, acc: Access, gla: bv64, d: Option<Decision>)
    requires level <= 3 && |path| == level + 1
    requires d.Some? ==> d.value == Decide(f, level, user, acc, Load(m, f, path[0]), gla) && !d.value.Descend?
    ensures Meaning(m, f, level, path, user, acc, gla, Stopped(path[0], gla, d))
  {
    var e := Load(m, f, path[0]);
    PermitsBits(e, user, acc.write);
    CodeBits(user, acc, false, e);
    CodeBits(user, acc, true, e);
    hide Load, Permits, Flag, PfErrorCode, PageAddress, NextTable, AccessBits, Allows, Large, Bit, Present;
    assert path[..0] == [] && path[..1] == [path[0]];
  }

  lemma DescendMeans(f: Format, level: nat, user: bool, acc: Access, e: Entry, gla: bv64)
    requires level <= 3 && Decide(f, level, user, acc, e, gla).Descend?
    ensures level > 0 && Decide(f, level, user, acc, e, gla).table == NextTable(e)
    ensures Allows(e, user, acc.write) && !Large(e)
  {
    PermitsBits(e, user, acc.write);
    hide Permits, Flag, PfErrorCode, PageAddress, NextTable, Allows, Large;
  }

  lemma MeaningOn(m: Ram, f: Format, level: nat, a: bv64, below: seq<bv64>, user: bool, acc: Access, gla: bv64, rest: Walked)
    requires 1 <= level <= 3 && |below| == level && Meaning(m, f, level - 1, below, user, acc, gla, rest)
    requires Allows(Load(m, f, a), user, acc.write) && !Large(Load(m, f, a))
    ensures Meaning(m, f, level, [a] + below, user, acc, gla, Walked(rest.outcome, [a] + rest.visited))
  {
    hide Load, Allows, Large, Explained, Passed;
    var path, n := [a] + below, |rest.visited|;
    assert path[..n + 1] == [a] + below[..n];
    PassedOn(m, f, a, below, n, user, acc.write);
    ExplainedOn(m, f, level, a, below, n, user, acc, gla, rest.outcome);
  }

  lemma PassedOn(m: Ram, f: Format, a: bv64, below: seq<bv64>, n: nat, user: bool, write: bool)
    requires Passed(m, f, below, n, user, write) && Allows(Load(m, f, a), user, write) && !Large(Load(m, f, a))
    ensures Passed(m, f, [a] + below, n + 1, user, write)
  {
    hide Load, Allows, Large;
    var path := [a] + below;
    forall k | 0 <= k < n + 1
      ensures Allows(Load(m, f, path[k]), user, write) && (k < n ==> !Large(Load(m, f, path[k])))
    {
      if k > 0 {
        assert path[k] == below[k - 1];
      }
    }
  }

  lemma ExplainedOn(m: Ram, f: Format, level: nat, a: bv64, below: seq<bv64>, n: nat, user: bool, acc: Access, gla: bv64,
                    o: Outcome)
    requires 1 <= level <= 3 && |below| == level && n <= level && Explained(m, f, level - 1, below, n, user, acc, gla, o)
    requires !Large(Load(m, f, a))
    ensures Explained(m, f, level, [a] + below, n + 1, user, acc, gla, o)
  {
    hide Load, PageAddress, AccessBits, Allows, Large, Bit, Present;
    var path := [a] + below;
    assert n > 0 ==> path[n] == below[n - 1];
    assert n < level ==> path[n + 1] == below[n];
    assert path[0] == a;
  }

  // ---------------------------------------------------------------------------
  // The whole translation
  // ---------------------------------------------------------------------------

  /** Where a paging mode begins its walk: at the root, or at the table of a PAE directory pointer. */
  function TopLevel(mode: PagingMode): nat {
    if mode.FourLevel? then 3 else 1
  }

  function TopTable(m: Ram, pg: Paging, gla: bv64): bv64 {
    if pg.mode.Pae? then NextTable(Load(m, Wide, PdptEntry(pg, gla))) else Root(pg.mode, pg.cr3)
  }

  /** A faulting PAE translation stops at its directory pointer. */
  predicate PdptAbsent(m: Ram, pg: Paging, gla: bv64) {
    pg.mode.Pae? && !Present(Load(m, Wide, PdptEntry(pg, gla)))
  }

  /** Every page fault: its address and every bit of its error code, by the entries it stopped at. */
  lemma FaultMeans(m: Ram, segs: seq<Segment>, pg: Paging, acc: Access, gla: bv64)
    requires Translate(m, segs, pg, acc, gla).outcome.PageFault?
    ensures
      var w := Translate(m, segs, pg, acc, gla);
      var code, f, level := w.outcome.code, FormatOf(pg.mode), TopLevel(pg.mode);
      && w.outcome.cr2 == gla && AccessBits(code, pg.user, acc) && !pg.mode.Flat?
      && if PdptAbsent(m, pg, gla) then w.visited == [] && !Bit(code, 0x01) && !Bit(code, 0x08)
         else Meaning(m, f, level, EntryPath(m, f, level, TopTable(m, pg, gla), gla), pg.user, acc, gla, w)
  {
    var pdpt := Load(m, Wide, PdptEntry(pg, gla));
    var f, level := FormatOf(pg.mode), TopLevel(pg.mode);
    LowFlags(pdpt);
    CodeBits(pg.user, acc, false, pdpt);
    hide Load, HasHva, Root, PdptEntry, NonCanonical, Flag, PfErrorCode, NextTable, WalkTable;
    WalkMeans(m, segs, pg.user, acc, f, level, TopTable(m, pg, gla), gla);
    hide AccessBits, Passed, Bit;
  }

  /** Every translated address: the entries that lead to it allow the access, and only the last of them maps
      a page. */
  lemma AddressMeans(m: Ram, segs: seq<Segment>, pg: Paging, acc: Access, gla: bv64)
    requires Translate(m, segs, pg, acc, gla).outcome.Address?
    ensures
      var w := Translate(m, segs, pg, acc, gla);
      var f, level := FormatOf(pg.mode), TopLevel(pg.mode);
      if pg.mode.Flat? then w == Walked(Address(gla), [])
      else
        && !PdptAbsent(m, pg, gla)
        && Meaning(m, f, level, EntryPath(m, f, level, TopTable(m, pg, gla), gla), pg.user, acc, gla, w)
  {
    LowFlags(Load(m, Wide, PdptEntry(pg, gla)));
    hide Load, HasHva, Root, PdptEntry, NonCanonical, Flag, PfErrorCode, NextTable, WalkTable, Meaning;
    WalkMeans(m, segs, pg.user, acc, FormatOf(pg.mode), TopLevel(pg.mode), TopTable(m, pg, gla), gla);
  }
}
