/** Copying between the monitor and guest linear memory.

    A linear range is translated page by page into pieces of physical memory; bytes are then
    copied piece by piece.  The pieces are shown to be the byte-by-byte translation of the range. */
module GuestCopy {
  import opened GuestPaging

  type PieceLen = n: nat | n <= 4096

  datatype Piece = Piece(gpa: bv64, len: PieceLen)

  // ---------------------------------------------------------------------------
  // Translation is page-local
  // ---------------------------------------------------------------------------

  predicate SamePage(x: bv64, y: bv64) {
    x & 0xffff_ffff_ffff_f000 == y & 0xffff_ffff_ffff_f000
  }

  function PageOffset(x: bv64): bv64 {
    x & 0xfff
  }

  /** What the translation of `gla` says about that of `gla'` on the same page. */
  predicate PageLocal(o: Outcome, o': Outcome, gla: bv64, gla': bv64) {
    match o
    case Address(g) =>
      && o'.Address? && SamePage(g, o'.gpa)
      && PageOffset(g) == PageOffset(gla) && PageOffset(o'.gpa) == PageOffset(gla')
    case PageFault(code, _) => o' == PageFault(code, gla')
    case ProtectionFault => o' == o
    case NotBacked => o' == o
  }

  lemma MaskedIsPageLocal(x: bv64, y: bv64, mask: bv64)
    requires SamePage(x, y) && mask & 0xfff == 0
    ensures Masked(x, mask) == Masked(y, mask)
  {
    assert x & 0xffff_ffff_ffff_f000 & mask == x & mask;
    assert y & 0xffff_ffff_ffff_f000 & mask == y & mask;
  }

  lemma FieldIsPageLocal(x: bv64, y: bv64, mask: bv64, lo: bv64)
    requires SamePage(x, y) && mask & 0xfff == 0 && lo < 64
    ensures Field(x, mask, lo) == Field(y, mask, lo)
  {
    hide SamePage, Masked, ShiftRight;
    MaskedIsPageLocal(x, y, mask);
  }

  lemma IndexIsPageLocal(f: Format, level: nat, gla: bv64, gla': bv64)
    requires level <= 3 && SamePage(gla, gla')
    ensures Index(f, level, gla) == Index(f, level, gla')
  {
    hide SamePage, Field;
    FieldIsPageLocal(gla, gla', 0x003f_f000, 12);
    FieldIsPageLocal(gla, gla', 0xffc0_0000, 22);
    FieldIsPageLocal(gla, gla', 0x001f_f000, 12);
    FieldIsPageLocal(gla, gla', 0x3fe0_0000, 21);
    FieldIsPageLocal(gla, gla', 0x007f_c000_0000, 30);
    FieldIsPageLocal(gla, gla', 0xff80_0000_0000, 39);
  }

  lemma LowBitsOfFrame(f: Format, level: nat, pte: bv64)
    requires level <= 3
    ensures PageOffset(FrameOf(f, level, pte)) == 0
  {
  }

  lemma OffsetMaskHasPage(f: Format, level: nat)
    requires level <= 3
    ensures PageOffset(OffsetMask(f, level)) == 0xfff
  {
  }

  lemma SpliceIsPageLocal(frame: bv64, mask: bv64, gla: bv64, gla': bv64)
    requires PageOffset(frame) == 0 && PageOffset(mask) == 0xfff && SamePage(gla, gla')
    ensures
      var g, g' := Splice(frame, Masked(gla, mask)), Splice(frame, Masked(gla', mask));
      SamePage(g, g') && PageOffset(g) == PageOffset(gla) && PageOffset(g') == PageOffset(gla')
  {
  }

  lemma RootIndexIsPageLocal(pg: Paging, gla: bv64, gla': bv64)
    requires SamePage(gla, gla')
    ensures NonCanonical(pg.long64, gla) == NonCanonical(pg.long64, gla')
    ensures PdptEntry(pg, gla) == PdptEntry(pg, gla')
  {
    hide SamePage, Masked, Field, Root, EntryAddr;
    MaskedIsPageLocal(gla, gla', 0x8000_0000_0000);
    MaskedIsPageLocal(gla, gla', 0xffff_0000_0000_0000);
    FieldIsPageLocal(gla, gla', 0xc000_0000, 30);
  }

  lemma AddressIsPageLocal(f: Format, level: nat, e: Entry, gla: bv64, gla': bv64)
    requires level <= 3 && SamePage(gla, gla')
    ensures PageLocal(Address(PageAddress(f, level, e, gla)), Address(PageAddress(f, level, e, gla')), gla, gla')
  {
    hide SamePage, PageOffset, FrameOf, OffsetMask, Splice, Masked, Value;
    LowBitsOfFrame(f, level, Value(e));
    OffsetMaskHasPage(f, level);
    SpliceIsPageLocal(FrameOf(f, level, Value(e)), OffsetMask(f, level), gla, gla');
  }

  lemma DecideIsPageLocal(f: Format, level: nat, user: bool, acc: Access, e: Entry, gla: bv64, gla': bv64)
    requires level <= 3 && SamePage(gla, gla')
    ensures
      var d, d' := Decide(f, level, user, acc, e, gla), Decide(f, level, user, acc, e, gla');
      if d.Page? then d'.Page? && PageLocal(Address(d.gpa), Address(d'.gpa), gla, gla') else d' == d
  {
    hide SamePage, PageLocal, Permits, Flag, PfErrorCode, NextTable, PageAddress;
    AddressIsPageLocal(f, level, e, gla, gla');
  }

  lemma {:induction false} WalkIsPageLocal(m: Ram, segs: seq<Segment>, user: bool, acc: Access, f: Format, level: nat,
                                           table: bv64, gla: bv64, gla': bv64)
    requires level <= 3 && SamePage(gla, gla')
    ensures PageLocal(WalkTable(m, segs, user, acc, f, level, table, gla).outcome,
                      WalkTable(m, segs, user, acc, f, level, table, gla').outcome, gla, gla')
    decreases level
  {
    hide SamePage, PageOffset, Index, Decide, EntryAddr, Load, HasHva;
    IndexIsPageLocal(f, level, gla, gla');
    var e := Load(m, f, EntryAddr(f, table, Index(f, level, gla)));
    DecideIsPageLocal(f, level, user, acc, e, gla, gla');
    var d := Decide(f, level, user, acc, e, gla);
    if d.Descend? {
      WalkIsPageLocal(m, segs, user, acc, f, level - 1, d.table, gla, gla');
    }
  }

  /** Two addresses on one linear page are translated to one physical page, or fail alike. */
  lemma TranslateIsPageLocal(m: Ram, segs: seq<Segment>, pg: Paging, acc: Access, gla: bv64, gla': bv64)
    requires SamePage(gla, gla')
    ensures PageLocal(Translate(m, segs, pg, acc, gla).outcome, Translate(m, segs, pg, acc, gla').outcome, gla, gla')
  {
    hide SamePage, PageOffset, NonCanonical, PdptEntry, Root, HasHva, Load, Flag, NextTable, PfErrorCode, WalkTable;
    RootIndexIsPageLocal(pg, gla, gla');
    match pg.mode
    case Flat =>
    case Legacy32 => WalkIsPageLocal(m, segs, pg.user, acc, Narrow, 1, Root(Legacy32, pg.cr3), gla, gla');
    case Pae =>
      var e := Load(m, Wide, PdptEntry(pg, gla));
      WalkIsPageLocal(m, segs, pg.user, acc, Wide, 1, NextTable(e), gla, gla');
    case FourLevel => WalkIsPageLocal(m, segs, pg.user, acc, Wide, 3, Root(FourLevel, pg.cr3), gla, gla');
  }

  // ---------------------------------------------------------------------------
  // Stepping through a page, byte by byte
  // ---------------------------------------------------------------------------

  function Next(x: bv64): bv64 { x + 1 }

  /** `x + n` modulo 2^64. */
  function Plus(x: bv64, n: nat): bv64 {
    if n == 0 then x else Next(Plus(x, n - 1))
  }

  /** Offset in the page, as a number. */
  function Off(x: bv64): (n: nat)
    ensures n <= 4095
  {
    (x & 0xfff) as nat
  }

  lemma {:induction false} PlusPlus(x: bv64, i: nat, j: nat)
    ensures Plus(Plus(x, i), j) == Plus(x, i + j)
  {
    if j > 0 {
      PlusPlus(x, i, j - 1);
    }
  }

  lemma NextOff(x: bv64)
    ensures Off(Next(x)) == if Off(x) == 4095 then 0 else Off(x) + 1
  {
    if x & 0xfff == 0xfff {
      assert (x + 1) & 0xfff == 0;
    }
  }

  lemma NextSamePage(x: bv64)
    requires x & 0xfff != 0xfff
    ensures SamePage(x, Next(x))
  {
    assert x & 0xffff_ffff_ffff_f000 == (x + 1) & 0xffff_ffff_ffff_f000;
  }

  lemma NextPageOffset(x: bv64, y: bv64)
    requires PageOffset(x) == PageOffset(y)
    ensures PageOffset(Next(x)) == PageOffset(Next(y))
  {
    assert x & 0xfff == y & 0xfff ==> (x + 1) & 0xfff == (y + 1) & 0xfff;
  }

  lemma OffIsPageOffset(x: bv64, y: bv64)
    ensures PageOffset(x) == PageOffset(y) ==> Off(x) == Off(y)
    ensures Off(x) < 4095 ==> x & 0xfff != 0xfff
  {
  }

  lemma SamePageTransitive(x: bv64, y: bv64, z: bv64)
    requires SamePage(y, x) && SamePage(y, z)
    ensures SamePage(x, z)
  {
  }

  lemma SplitPage(x: bv64, y: bv64)
    requires SamePage(x, y) && PageOffset(x) == PageOffset(y)
    ensures x == y
  {
    assert (x & 0xffff_ffff_ffff_f000) | (x & 0xfff) == x;
    assert (y & 0xffff_ffff_ffff_f000) | (y & 0xfff) == y;
  }

  lemma SamePageReflexive(x: bv64)
    ensures SamePage(x, x)
  {
  }

  lemma {:induction false} OffOfPlus(x: bv64, k: nat)
    requires Off(x) + k <= 4096
    ensures Off(Plus(x, k)) == if Off(x) + k == 4096 then 0 else Off(x) + k
  {
    hide Off, Next;
    if k > 0 {
      OffOfPlus(x, k - 1);
      NextOff(Plus(x, k - 1));
    }
  }

  /** One byte further inside a page on both sides of the translation. */
  lemma NextByte(m: Ram, segs: seq<Segment>, pg: Paging, acc: Access, gla: bv64, gpa: bv64)
    requires Translate(m, segs, pg, acc, gla).outcome == Address(gpa)
    requires PageOffset(gpa) == PageOffset(gla) && Off(gpa) < 4095
    ensures Translate(m, segs, pg, acc, Next(gla)).outcome == Address(Next(gpa))
    ensures PageOffset(Next(gpa)) == PageOffset(Next(gla))
  {
    hide Translate, SamePage, PageOffset, Off, Next;
    OffIsPageOffset(gpa, gla);
    OffIsPageOffset(gla, gpa);
    NextSamePage(gla);
    NextSamePage(gpa);
    NextPageOffset(gpa, gla);
    TranslateIsPageLocal(m, segs, pg, acc, gla, Next(gla));
    var gpa' := Translate(m, segs, pg, acc, Next(gla)).outcome.gpa;
    SamePageTransitive(gpa', gpa, Next(gpa));
    SplitPage(gpa', Next(gpa));
  }

  lemma {:induction false} BytesInPage(m: Ram, segs: seq<Segment>, pg: Paging, acc: Access, gla: bv64, gpa: bv64, k: nat)
    requires Translate(m, segs, pg, acc, gla).outcome == Address(gpa)
    requires Off(gpa) + k < 4096
    ensures Off(gpa) == Off(gla)
    ensures Translate(m, segs, pg, acc, Plus(gla, k)).outcome == Address(Plus(gpa, k))
    ensures PageOffset(Plus(gpa, k)) == PageOffset(Plus(gla, k))
    decreases k
  {
    hide Translate, SamePage, PageOffset, Off, Next;
    if k == 0 {
      SamePageReflexive(gla);
      TranslateIsPageLocal(m, segs, pg, acc, gla, gla);
      OffIsPageOffset(gpa, gla);
    } else {
      BytesInPage(m, segs, pg, acc, gla, gpa, k - 1);
      OffOfPlus(gpa, k - 1);
      NextByte(m, segs, pg, acc, Plus(gla, k - 1), Plus(gpa, k - 1));
    }
  }

  // ---------------------------------------------------------------------------
  // Pieces of a range
  // ---------------------------------------------------------------------------

  function TotalLen(pieces: seq<Piece>): nat {
    if pieces == [] then 0 else pieces[0].len + TotalLen(pieces[1..])
  }

  /** The physical address of byte `k` of the range. */
  function ByteAddr(pieces: seq<Piece>, k: nat): bv64
    requires k < TotalLen(pieces)
  {
    if k < pieces[0].len then Plus(pieces[0].gpa, k) else ByteAddr(pieces[1..], k - pieces[0].len)
  }

  /** The pieces are, byte by byte, the translation of the range at `gla`. */
  ghost predicate IsTranslation(m: Ram, segs: seq<Segment>, pg: Paging, acc: Access, gla: bv64, pieces: seq<Piece>) {
    forall k: nat | k < TotalLen(pieces) ::
      Translate(m, segs, pg, acc, Plus(gla, k)).outcome == Address(ByteAddr(pieces, k))
  }

  /** No piece crosses a page; only the first starts and only the last ends inside one. */
  ghost predicate PageShaped(pieces: seq<Piece>, last: bool) {
    forall i | 0 <= i < |pieces| ::
      && 0 < pieces[i].len && Off(pieces[i].gpa) + pieces[i].len <= 4096
      && (i > 0 ==> Off(pieces[i].gpa) == 0)
      && (i < |pieces| - 1 || !last ==> Off(pieces[i].gpa) + pieces[i].len == 4096)
  }

  lemma {:induction false} AppendPiece(pieces: seq<Piece>, p: Piece)
    ensures TotalLen(pieces + [p]) == TotalLen(pieces) + p.len
    ensures forall k: nat | k < TotalLen(pieces) + p.len ::
              ByteAddr(pieces + [p], k) ==
              if k < TotalLen(pieces) then ByteAddr(pieces, k) else Plus(p.gpa, k - TotalLen(pieces))
    decreases |pieces|
  {
    hide Plus;
    if pieces == [] {
      assert (pieces + [p])[1..] == [];
    } else {
      assert (pieces + [p])[1..] == pieces[1..] + [p];
      AppendPiece(pieces[1..], p);
    }
  }

  lemma AppendTranslation(m: Ram, segs: seq<Segment>, pg: Paging, acc: Access, gla: bv64, pieces: seq<Piece>, p: Piece)
    requires IsTranslation(m, segs, pg, acc, gla, pieces)
    requires Translate(m, segs, pg, acc, Plus(gla, TotalLen(pieces))).outcome == Address(p.gpa)
    requires 0 < p.len && Off(p.gpa) + p.len <= 4096
    ensures IsTranslation(m, segs, pg, acc, gla, pieces + [p])
  {
    hide Translate, Off, Plus;
    var done := TotalLen(pieces);
    AppendPiece(pieces, p);
    forall k: nat | k < done + p.len
      ensures Translate(m, segs, pg, acc, Plus(gla, k)).outcome == Address(ByteAddr(pieces + [p], k))
    {
      if k >= done {
        BytesInPage(m, segs, pg, acc, Plus(gla, done), p.gpa, k - done);
        PlusPlus(gla, done, k - done);
      }
    }
  }

  /** Everything the setup loop keeps, across one more piece cut at the page end. */
  lemma ExtendRange(m: Ram, segs: seq<Segment>, pg: Paging, acc: Access, gla: bv64, pieces: seq<Piece>, p: Piece,
                    remaining: nat)
    requires IsTranslation(m, segs, pg, acc, gla, pieces) && PageShaped(pieces, false)
    requires Translate(m, segs, pg, acc, Plus(gla, TotalLen(pieces))).outcome == Address(p.gpa)
    requires pieces != [] ==> Off(Plus(gla, TotalLen(pieces))) == 0
    requires remaining > 0
    requires p.len == if remaining <= 4096 - Off(p.gpa) then remaining else 4096 - Off(p.gpa)
    ensures 0 < p.len <= remaining && TotalLen(pieces + [p]) == TotalLen(pieces) + p.len
    ensures IsTranslation(m, segs, pg, acc, gla, pieces + [p])
    ensures PageShaped(pieces + [p], remaining == p.len)
    ensures Plus(Plus(gla, TotalLen(pieces)), p.len) == Plus(gla, TotalLen(pieces + [p]))
    ensures remaining > p.len ==> Off(Plus(gla, TotalLen(pieces + [p]))) == 0
  {
    hide Translate, Off, Plus, IsTranslation;
    var cur := Plus(gla, TotalLen(pieces));
    BytesInPage(m, segs, pg, acc, cur, p.gpa, 0);
    AppendTranslation(m, segs, pg, acc, gla, pieces, p);
    AppendPiece(pieces, p);
    PlusPlus(gla, TotalLen(pieces), p.len);
    OffOfPlus(cur, p.len);
  }

  lemma NoPieces(m: Ram, segs: seq<Segment>, pg: Paging, acc: Access, gla: bv64)
    ensures IsTranslation(m, segs, pg, acc, gla, []) && PageShaped([], true) && PageShaped([], false)
    ensures TotalLen([]) == 0 && Plus(gla, 0) == gla
  {
  }

  lemma SameButAdTransitive(f: Format, a: Ram, b: Ram, c: Ram)
    requires SameButAd(f, a, b) && SameButAd(f, b, c)
    ensures SameButAd(f, a, c)
  {
    hide Aligned;
    forall x: bv64
      ensures if Aligned(f, x) then a(x) & 0x9f == c(x) & 0x9f else a(x) == c(x)
    {
      assert if Aligned(f, x) then a(x) & 0x9f == b(x) & 0x9f else a(x) == b(x);
      assert if Aligned(f, x) then b(x) & 0x9f == c(x) & 0x9f else b(x) == c(x);
    }
  }

  datatype Setup = Ready | Fault(outcome: Outcome) | NoMemory

  predicate PieceBacked(segs: seq<Segment>, p: Piece) {
    HasHva(segs, p.gpa, p.len as bv64)
  }

  ghost predicate Backed(segs: seq<Segment>, pieces: seq<Piece>) {
    forall p <- pieces :: PieceBacked(segs, p)
  }

  /** Translates the range [gla, gla + len) page by page.  On a fault the pieces found so far are
      left behind; when some piece has no host memory the list is cleared. */
  method CopySetup(vm: Vm, pg: Paging, gla: bv64, len: nat, acc: Access) returns (r: Setup, pieces: seq<Piece>)
    modifies vm`ram
    ensures SameButAd(FormatOf(pg.mode), old(vm.ram), vm.ram)
    ensures r.Ready? ==>
              && TotalLen(pieces) == len && PageShaped(pieces, true) && Backed(vm.segs, pieces)
              && IsTranslation(old(vm.ram), vm.segs, pg, acc, gla, pieces)
    ensures r.Fault? ==>
              && TotalLen(pieces) < len && !r.outcome.Address?
              && IsTranslation(old(vm.ram), vm.segs, pg, acc, gla, pieces)
              && r.outcome == Translate(old(vm.ram), vm.segs, pg, acc, Plus(gla, TotalLen(pieces))).outcome
    ensures r.NoMemory? ==>
              && pieces == []
              && exists ps :: && TotalLen(ps) == len && PageShaped(ps, true) && !Backed(vm.segs, ps)
                              && IsTranslation(old(vm.ram), vm.segs, pg, acc, gla, ps)
  {
    hide Translate, SameButAd, AdUpdate, Off, Plus, Backed, PageShaped, IsTranslation, TotalLen;
    ghost var m0 := vm.ram;
    ghost var f := FormatOf(pg.mode);
    SameButAdReflexive(f, m0);
    pieces := [];
    NoPieces(m0, vm.segs, pg, acc, gla);
    var remaining, cur := len, gla;
    while remaining > 0
      invariant SameButAd(f, m0, vm.ram)
      invariant 0 <= remaining && TotalLen(pieces) + remaining == len
      invariant cur == Plus(gla, TotalLen(pieces))
      invariant PageShaped(pieces, remaining == 0)
      invariant pieces != [] && remaining > 0 ==> Off(cur) == 0
      invariant IsTranslation(m0, vm.segs, pg, acc, gla, pieces)
    {
      ghost var before := vm.ram;
      var o, passes := vm.Gla2Gpa(pg, acc, cur);
      TranslateIgnoresAd(f, m0, before, vm.segs, pg, acc, cur);
      SameButAdTransitive(f, m0, before, vm.ram);
      if !o.Address? {
        return Fault(o), pieces;
      }
      var n: nat := if remaining <= 4096 - Off(o.gpa) then remaining else 4096 - Off(o.gpa);
      var p := Piece(o.gpa, n);
      ExtendRange(m0, vm.segs, pg, acc, gla, pieces, p, remaining);
      pieces := pieces + [p];
      remaining := remaining - n;
      cur := Plus(cur, n);
    }
    var ok := AllBacked(vm, pieces);
    if !ok {
      return NoMemory, [];
    }
    r := Ready;
  }

  method AllBacked(vm: Vm, pieces: seq<Piece>) returns (ok: bool)
    ensures ok == Backed(vm.segs, pieces)
  {
    hide PieceBacked;
    for idx := 0 to |pieces|
      invariant forall i | 0 <= i < idx :: PieceBacked(vm.segs, pieces[i])
    {
      var found := PieceHva(vm, pieces[idx]);
      if !found {
        assert pieces[idx] in pieces;
        return false;
      }
    }
    return true;
  }

  method PieceHva(vm: Vm, p: Piece) returns (found: bool)
    ensures found == PieceBacked(vm.segs, p)
  {
    hide HasHva;
    found := vm.Gpa2Hva(p.gpa, p.len as bv64);
  }

  lemma SameButAdReflexive(f: Format, m: Ram)
    ensures SameButAd(f, m, m)
  {
  }

  // ---------------------------------------------------------------------------
  // Short ranges: at most two pieces, never overlapping
  // ---------------------------------------------------------------------------

  /** A range of at most one page's length needs at most two pieces. */
  lemma AtMostTwoPieces(pieces: seq<Piece>)
    requires PageShaped(pieces, true) && TotalLen(pieces) <= 4096
    ensures |pieces| <= 2
  {
    if |pieces| >= 2 {
      var rest := pieces[1..];
      assert TotalLen(pieces) >= pieces[0].len + rest[0].len && rest[0] == pieces[1];
    }
  }

  /** No byte address is used twice by the pieces. */
  ghost predicate Disjoint(pieces: seq<Piece>) {
    forall i: nat, j: nat | i < j < TotalLen(pieces) :: ByteAddr(pieces, i) != ByteAddr(pieces, j)
  }

  lemma OffOfByte(pieces: seq<Piece>, k: nat)
    requires PageShaped(pieces, true) && |pieces| <= 2 && k < TotalLen(pieces)
    ensures Off(ByteAddr(pieces, k)) ==
            if k < pieces[0].len then Off(pieces[0].gpa) + k else k - pieces[0].len
  {
    hide Off, Plus;
    if k < pieces[0].len {
      OffOfPlus(pieces[0].gpa, k);
    } else {
      var rest := pieces[1..];
      assert rest[0] == pieces[1] && TotalLen(rest) == rest[0].len + TotalLen(rest[1..]);
      OffOfPlus(rest[0].gpa, k - pieces[0].len);
    }
  }

  /** The pieces of a short range never overlap, even if both pages map to one frame. */
  lemma ShortRangeIsDisjoint(pieces: seq<Piece>)
    requires PageShaped(pieces, true) && TotalLen(pieces) <= 4096
    ensures Disjoint(pieces)
  {
    hide Off, Plus;
    AtMostTwoPieces(pieces);
    forall i: nat, j: nat | i < j < TotalLen(pieces)
      ensures ByteAddr(pieces, i) != ByteAddr(pieces, j)
    {
      OffOfByte(pieces, i);
      OffOfByte(pieces, j);
      if |pieces| == 2 {
        assert pieces[0].len + Off(pieces[0].gpa) == 4096;
      }
    }
  }

  // ---------------------------------------------------------------------------
  // Copying
  // ---------------------------------------------------------------------------

  function Put(m: Ram, a: bv64, b: bv8): Ram {
    (x: bv64) => if x == a then b else m(x)
  }

  /** Byte by byte, `data` written over the range. */
  function WriteRange(m: Ram, pieces: seq<Piece>, data: seq<bv8>): Ram
    requires |data| <= TotalLen(pieces)
  {
    if data == [] then m
    else Put(WriteRange(m, pieces, data[..|data| - 1]), ByteAddr(pieces, |data| - 1), data[|data| - 1])
  }

  function ReadRange(m: Ram, pieces: seq<Piece>, n: nat): seq<bv8>
    requires n <= TotalLen(pieces)
  {
    seq(n, i requires 0 <= i < n => m(ByteAddr(pieces, i)))
  }

  lemma {:induction false} WriteRangeAt(m: Ram, pieces: seq<Piece>, data: seq<bv8>, k: nat)
    requires k < |data| <= TotalLen(pieces) && Disjoint(pieces)
    ensures WriteRange(m, pieces, data)(ByteAddr(pieces, k)) == data[k]
    decreases |data|
  {
    var n := |data| - 1;
    if k < n {
      WriteRangeAt(m, pieces, data[..n], k);
      assert ByteAddr(pieces, k) != ByteAddr(pieces, n);
    }
  }

  /** Copying out and in again over disjoint pieces returns the same bytes. */
  lemma RoundTrip(m: Ram, pieces: seq<Piece>, data: seq<bv8>)
    requires |data| == TotalLen(pieces) && Disjoint(pieces)
    ensures ReadRange(WriteRange(m, pieces, data), pieces, |data|) == data
  {
    hide ByteAddr;
    forall k | 0 <= k < |data|
      ensures ReadRange(WriteRange(m, pieces, data), pieces, |data|)[k] == data[k]
    {
      WriteRangeAt(m, pieces, data, k);
    }
  }

  /** For a range of at most 4096 bytes, whatever was copied out is read back. */
  lemma ShortRangeRoundTrip(m: Ram, pieces: seq<Piece>, data: seq<bv8>)
    requires PageShaped(pieces, true) && |data| == TotalLen(pieces) <= 4096
    ensures |pieces| <= 2 && ReadRange(WriteRange(m, pieces, data), pieces, |data|) == data
  {
    AtMostTwoPieces(pieces);
    ShortRangeIsDisjoint(pieces);
    RoundTrip(m, pieces, data);
  }

  /** Nothing outside the range is written. */
  lemma {:induction false} WriteRangeElsewhere(m: Ram, pieces: seq<Piece>, data: seq<bv8>, x: bv64)
    requires |data| <= TotalLen(pieces)
    requires forall k: nat | k < |data| :: ByteAddr(pieces, k) != x
    ensures WriteRange(m, pieces, data)(x) == m(x)
    decreases |data|
  {
    if data != [] {
      WriteRangeElsewhere(m, pieces, data[..|data| - 1], x);
    }
  }

  lemma {:induction false} ByteOfPiece(pieces: seq<Piece>, idx: nat, i: nat)
    requires idx < |pieces| && i < pieces[idx].len
    ensures TotalLen(pieces[..idx]) + i < TotalLen(pieces)
    ensures ByteAddr(pieces, TotalLen(pieces[..idx]) + i) == Plus(pieces[idx].gpa, i)
    decreases idx
  {
    hide Plus;
    if idx > 0 {
      assert pieces[..idx][1..] == pieces[1..][..idx - 1] && pieces[..idx][0] == pieces[0];
      ByteOfPiece(pieces[1..], idx - 1, i);
    }
  }

  lemma TakeOneMore(pieces: seq<Piece>, idx: nat)
    requires idx < |pieces|
    ensures TotalLen(pieces[..idx + 1]) == TotalLen(pieces[..idx]) + pieces[idx].len
  {
    AppendPiece(pieces[..idx], pieces[idx]);
    assert pieces[..idx + 1] == pieces[..idx] + [pieces[idx]];
  }

  lemma AllPieces(pieces: seq<Piece>)
    ensures TotalLen(pieces[..0]) == 0 && TotalLen(pieces[..|pieces|]) == TotalLen(pieces)
  {
    assert pieces[..|pieces|] == pieces;
  }

  /** Copies monitor bytes to the guest, piece after piece. */
  method Copyout(vm: Vm, data: seq<bv8>, pieces: seq<Piece>)
    requires |data| == TotalLen(pieces)
    modifies vm`ram
    ensures vm.ram == WriteRange(old(vm.ram), pieces, data)
  {
    hide Plus, ByteAddr, TotalLen, Put;
    AllPieces(pieces);
    ghost var m0 := vm.ram;
    var src := 0;
    assert data[..0] == [];
    for idx := 0 to |pieces|
      invariant src == TotalLen(pieces[..idx]) <= |data|
      invariant vm.ram == WriteRange(m0, pieces, data[..src])
    {
      TakeOneMore(pieces, idx);
      BlockFits(pieces, idx);
      for i := 0 to pieces[idx].len
        invariant vm.ram == WriteRange(m0, pieces, data[..src + i])
      {
        ByteOfPiece(pieces, idx, i);
        vm.ram := Put(vm.ram, Plus(pieces[idx].gpa, i), data[src + i]);
        assert data[..src + i + 1][..src + i] == data[..src + i];
      }
      src := src + pieces[idx].len;
    }
    assert data[..src] == data;
  }

  lemma {:induction false} BlockFits(pieces: seq<Piece>, idx: nat)
    requires idx < |pieces|
    ensures TotalLen(pieces[..idx]) + pieces[idx].len <= TotalLen(pieces)
    decreases idx
  {
    if idx > 0 {
      assert pieces[..idx][1..] == pieces[1..][..idx - 1] && pieces[..idx][0] == pieces[0];
      BlockFits(pieces[1..], idx - 1);
    }
  }

  /** Copies guest bytes to the monitor, piece after piece. */
  method Copyin(vm: Vm, pieces: seq<Piece>) returns (data: seq<bv8>)
    ensures data == ReadRange(vm.ram, pieces, TotalLen(pieces))
  {
    hide Plus, ByteAddr, TotalLen;
    AllPieces(pieces);
    data := [];
    for idx := 0 to |pieces|
      invariant |data| == TotalLen(pieces[..idx]) <= TotalLen(pieces)
      invariant data == ReadRange(vm.ram, pieces, |data|)
    {
      TakeOneMore(pieces, idx);
      BlockFits(pieces, idx);
      ghost var start := |data|;
      for i := 0 to pieces[idx].len
        invariant |data| == start + i && data == ReadRange(vm.ram, pieces, |data|)
      {
        ByteOfPiece(pieces, idx, i);
        data := data + [vm.ram(Plus(pieces[idx].gpa, i))];
      }
    }
  }
}
