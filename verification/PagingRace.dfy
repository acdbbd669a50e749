/** The guest's page tables change while the monitor walks them.

    `Advance` is the monitor's walk one memory operation at a time: it reads an entry, or compares and
    sets one, and starts over when a compare fails.  Between two of its steps other processors may write
    any bytes; other walks, which set flags, are among these writes. */
module PagingRace {
  import opened Wrappers
  import opened GuestPaging

  type Level = n: nat | n <= 3

  /** What is to be translated, and for which access. */
  datatype Job = Job(segs: seq<Segment>, pg: Paging, acc: Access, gla: bv64)

  /** Where a walk is. */
  datatype Position =
    | Begin
    | AtTable(level: Level, table: bv64)
    | AtEntry(level: Level, slot: bv64, pte: Entry)   // read and permitted, not yet marked accessed
    | AtLeaf(level: Level, slot: bv64, pte: Entry)    // marked accessed, not yet dirty
    | Finished(outcome: Outcome)

  datatype State = State(ram: Ram, at: Position)

  function FormatFor(j: Job): Format {
    FormatOf(j.pg.mode)
  }

  // ---------------------------------------------------------------------------
  // The steps of the walk
  // ---------------------------------------------------------------------------

  function Fault(j: Job, reserved: bool, pte: Entry): Position {
    Finished(PageFault(PfErrorCode(j.pg.user, j.acc, reserved, pte), j.gla))
  }

  function Rooted(j: Job, m: Ram): Position {
    if NonCanonical(j.pg.long64, j.gla) then Finished(ProtectionFault)
    else match j.pg.mode
      case Flat => Finished(Address(j.gla))
      case Legacy32 => AtTable(1, Root(Legacy32, j.pg.cr3))
      case Pae =>
        if !HasHva(j.segs, Root(Pae, j.pg.cr3), 32) then Finished(NotBacked)
        else
          var pte := Load(m, Wide, PdptEntry(j.pg, j.gla));
          if !Flag(pte, PG_V) then Fault(j, false, pte) else AtTable(1, NextTable(pte))
      case FourLevel => AtTable(3, Root(FourLevel, j.pg.cr3))
  }

  function SlotIn(j: Job, level: Level, table: bv64): bv64 {
    EntryAddr(FormatFor(j), table, Index(FormatFor(j), level, j.gla))
  }

  function ReadEntry(j: Job, m: Ram, level: Level, table: bv64): Position {
    if !HasHva(j.segs, table, PAGE_SIZE) then Finished(NotBacked)
    else
      var slot := SlotIn(j, level, table);
      var pte := Load(m, FormatFor(j), slot);
      if !Permits(pte, j.pg.user, j.acc.write) then Fault(j, false, pte) else AtEntry(level, slot, pte)
  }

  /** Where the walk goes from an entry that it has marked accessed. */
  function Onward(j: Job, level: Level, slot: bv64, pte: Entry): Position {
    if level > 0 && Flag(pte, PG_PS) then
      if level == 3 then Fault(j, true, pte) else AtLeaf(level, slot, pte)
    else if level == 0 then AtLeaf(level, slot, pte)
    else AtTable(level - 1, NextTable(pte))
  }

  /** Sets a flag of an entry, if it has to be set and the entry is still as it was read. */
  function Mark(m: Ram, f: Format, slot: bv64, pte: Entry, flag: bv8, needed: bool): Option<Ram> {
    if !needed then Some(m)
    else if Load(m, f, slot) == pte then Some(Store(m, f, slot, WithFlag(pte, flag)))
    else None
  }

  predicate MarksDirty(j: Job, pte: Entry) {
    j.acc.write && !Flag(pte, PG_M)
  }

  function AfterMark(m: Ram, marked: Option<Ram>, next: Position): State {
    match marked
    case None => State(m, Begin)
    case Some(m') => State(m', next)
  }

  function Advance(j: Job, s: State): State {
    match s.at
    case Begin => s.(at := Rooted(j, s.ram))
    case AtTable(level, table) => s.(at := ReadEntry(j, s.ram, level, table))
    case AtEntry(level, slot, pte) =>
      AfterMark(s.ram, Mark(s.ram, FormatFor(j), slot, pte, ACCESSED, !Flag(pte, PG_A)), Onward(j, level, slot, pte))
    case AtLeaf(level, slot, pte) =>
      AfterMark(s.ram, Mark(s.ram, FormatFor(j), slot, pte, DIRTY, MarksDirty(j, pte)),
                Finished(Address(PageAddress(FormatFor(j), level, pte, j.gla))))
    case Finished(_) => s
  }

  // ---------------------------------------------------------------------------
  // Runs with guest writes
  // ---------------------------------------------------------------------------

  /** What is written to each address, if anything. */
  type Bytes = bv64 -> Option<bv8>

  datatype Event = Walk | Guest(bytes: Bytes)

  function Overwrite(m: Ram, bytes: Bytes): Ram {
    (a: bv64) => if bytes(a).Some? then bytes(a).value else m(a)
  }

  function Next(j: Job, s: State, e: Event): State {
    match e
    case Walk => Advance(j, s)
    case Guest(bytes) => s.(ram := Overwrite(s.ram, bytes))
  }

  /** The state after the events, for a walk that begins in memory `m`. */
  function Play(j: Job, m: Ram, events: seq<Event>): State {
    if events == [] then State(m, Begin)
    else Next(j, Play(j, m, events[..|events| - 1]), events[|events| - 1])
  }

  /** The memory that the guest's writes alone would have left. */
  function Written(m: Ram, events: seq<Event>): Ram {
    if events == [] then m
    else
      var before := Written(m, events[..|events| - 1]);
      if events[|events| - 1].Walk? then before else Overwrite(before, events[|events| - 1].bytes)
  }

  // ---------------------------------------------------------------------------
  // No guest write is lost
  // ---------------------------------------------------------------------------

  /** Some Accessed and Dirty flags of aligned entries are set in addition. */
  predicate ByteAdds(b: bv8, b': bv8) {
    b & 0x9f == b' & 0x9f && b & b' == b
  }

  ghost predicate FlagsAdded(f: Format, m: Ram, m': Ram) {
    forall a: bv64 :: if Aligned(f, a) then ByteAdds(m(a), m'(a)) else m'(a) == m(a)
  }

  /** Tables are page-aligned, entries aligned, and entries to be marked permit the access. */
  ghost predicate Sound(j: Job, at: Position) {
    match at
    case AtTable(level, table) => PageAligned(table) && (FormatFor(j).Narrow? ==> level <= 1)
    case AtEntry(level, slot, pte) =>
      Aligned(FormatFor(j), slot) && Permits(pte, j.pg.user, j.acc.write) && (FormatFor(j).Narrow? ==> level <= 1)
    case AtLeaf(level, slot, pte) => Aligned(FormatFor(j), slot) && Permits(pte, j.pg.user, j.acc.write)
    case _ => true
  }

  lemma AdvanceSound(j: Job, s: State)
    requires Sound(j, s.at)
    ensures Sound(j, Advance(j, s).at)
  {
    hide Aligned, PageAligned, Permits, Flag, Load, NextTable, EntryAddr, Index, HasHva, Root, NonCanonical, PdptEntry,
      PfErrorCode, Mark, PageAddress;
    match s.at
    case Begin =>
      RootsAligned(j.pg.cr3);
      NextTableAligned(Load(s.ram, Wide, PdptEntry(j.pg, j.gla)));
    case AtTable(level, table) => EntryAligned(FormatFor(j), table, level, j.gla);
    case AtEntry(level, slot, pte) => NextTableAligned(pte);
    case _ =>
  }

  lemma FlagByte(b: bv8, flag: bv8)
    requires flag == ACCESSED || flag == DIRTY
    ensures ByteAdds(b, b) && ByteAdds(b, b | flag)
  {
  }

  lemma AddsTwice(b: bv8, b': bv8, b'': bv8)
    requires ByteAdds(b, b') && ByteAdds(b', b'')
    ensures ByteAdds(b, b'')
  {
    assert b & b'' == (b & b') & b'';
  }

  lemma MarkAdds(m: Ram, f: Format, slot: bv64, pte: Entry, flag: bv8, needed: bool)
    requires flag == ACCESSED || flag == DIRTY
    ensures
      var marked := Mark(m, f, slot, pte, flag, needed);
      marked.Some? ==> forall a: bv64 ::
        marked.value(a) == if needed && a == slot then m(a) | flag else m(a)
    ensures Mark(m, f, slot, pte, flag, needed).Some? && needed ==> Load(m, f, slot) == pte
  {
    hide Store, Load, WithFlag;
    if needed && Load(m, f, slot) == pte {
      forall a: bv64
        ensures Store(m, f, slot, WithFlag(pte, flag))(a) == if a == slot then m(a) | flag else m(a)
      {
        StoreSetsFlag(m, f, slot, flag, a);
      }
    }
  }

  /** The flag that a step may set, at the entry it has read. */
  function FlagAt(at: Position): bv8 {
    if at.AtEntry? then ACCESSED else DIRTY
  }

  /** A step changes memory only by setting a flag in the entry it is at, which still has the value it
      was read with. */
  lemma AdvanceMarks(j: Job, s: State, a: bv64)
    ensures
      var m' := Advance(j, s).ram;
      m'(a) != s.ram(a) ==>
        && (s.at.AtEntry? || s.at.AtLeaf?) && a == s.at.slot && Load(s.ram, FormatFor(j), a) == s.at.pte
        && m'(a) == s.ram(a) | FlagAt(s.at)
  {
    hide Mark, Load, Flag, MarksDirty, Onward, Rooted, ReadEntry, PageAddress;
    match s.at
    case AtEntry(level, slot, pte) => MarkAdds(s.ram, FormatFor(j), slot, pte, ACCESSED, !Flag(pte, PG_A));
    case AtLeaf(level, slot, pte) => MarkAdds(s.ram, FormatFor(j), slot, pte, DIRTY, MarksDirty(j, pte));
    case _ =>
  }

  lemma AdvanceAdds(j: Job, s: State)
    requires Sound(j, s.at)
    ensures FlagsAdded(FormatFor(j), s.ram, Advance(j, s).ram)
  {
    hide Advance, Aligned, ByteAdds, Load, Permits, PageAligned;
    var m' := Advance(j, s).ram;
    forall a: bv64
      ensures if Aligned(FormatFor(j), a) then ByteAdds(s.ram(a), m'(a)) else m'(a) == s.ram(a)
    {
      AdvanceMarks(j, s, a);
      FlagByte(s.ram(a), FlagAt(s.at));
    }
  }

  lemma AddedTwice(f: Format, m: Ram, m': Ram, m'': Ram)
    requires FlagsAdded(f, m, m') && FlagsAdded(f, m', m'')
    ensures FlagsAdded(f, m, m'')
  {
    hide ByteAdds, Aligned;
    forall a: bv64
      ensures if Aligned(f, a) then ByteAdds(m(a), m''(a)) else m''(a) == m(a)
    {
      if Aligned(f, a) {
        AddsTwice(m(a), m'(a), m''(a));
      }
    }
  }

  lemma AddedUnder(f: Format, m: Ram, m': Ram, bytes: Bytes)
    requires FlagsAdded(f, m, m')
    ensures FlagsAdded(f, Overwrite(m, bytes), Overwrite(m', bytes))
  {
    hide ByteAdds, Aligned;
    var n, n' := Overwrite(m, bytes), Overwrite(m', bytes);
    forall a: bv64
      ensures if Aligned(f, a) then ByteAdds(n(a), n'(a)) else n'(a) == n(a)
    {
      FlagByte(n(a), ACCESSED);
    }
  }

  lemma NothingAdded(f: Format, m: Ram)
    ensures FlagsAdded(f, m, m)
  {
    hide ByteAdds, Aligned;
    forall a: bv64
      ensures ByteAdds(m(a), m(a))
    {
      FlagByte(m(a), ACCESSED);
    }
  }

  /** Whatever the guest writes and whenever, the walk leaves what those writes leave, with some Accessed
      and Dirty flags of aligned entries set in addition. */
  lemma {:induction false} NoWriteIsLost(j: Job, m: Ram, events: seq<Event>)
    ensures Sound(j, Play(j, m, events).at)
    ensures FlagsAdded(FormatFor(j), Written(m, events), Play(j, m, events).ram)
  {
    assert Sound(j, Begin);
    hide FlagsAdded, Advance, Sound;
    if events == [] {
      NothingAdded(FormatFor(j), m);
    } else {
      var before, e := events[..|events| - 1], events[|events| - 1];
      var s := Play(j, m, before);
      NoWriteIsLost(j, m, before);
      if e.Walk? {
        AdvanceSound(j, s);
        AdvanceAdds(j, s);
        AddedTwice(FormatFor(j), Written(m, before), s.ram, Advance(j, s).ram);
      } else {
        AddedUnder(FormatFor(j), Written(m, before), s.ram, e.bytes);
      }
    }
  }

  /** At some moment before, memory held `pte` at `slot`. */
  ghost predicate SeenBefore(j: Job, m: Ram, events: seq<Event>, slot: bv64, pte: Entry) {
    exists i: nat :: i < |events| && Load(Play(j, m, events[..i]).ram, FormatFor(j), slot) == pte
  }

  ghost predicate EntrySeen(j: Job, m: Ram, events: seq<Event>, at: Position) {
    at.AtEntry? || at.AtLeaf? ==> SeenBefore(j, m, events, at.slot, at.pte)
  }

  lemma SeenEarlier(j: Job, m: Ram, events: seq<Event>, slot: bv64, pte: Entry)
    requires events != [] && SeenBefore(j, m, events[..|events| - 1], slot, pte)
    ensures SeenBefore(j, m, events, slot, pte)
  {
    hide Load, Play;
    var before := events[..|events| - 1];
    var i: nat :| i < |before| && Load(Play(j, m, before[..i]).ram, FormatFor(j), slot) == pte;
    assert before[..i] == events[..i];
  }

  lemma {:induction false} ReadsWereThere(j: Job, m: Ram, events: seq<Event>)
    ensures EntrySeen(j, m, events, Play(j, m, events).at)
  {
    if events != [] {
      var before, e := events[..|events| - 1], events[|events| - 1];
      ReadsWereThere(j, m, before);
      var s, s' := Play(j, m, before), Play(j, m, events);
      if s'.at.AtEntry? || s'.at.AtLeaf? {
        StepKeepsEntry(j, s, e);
        hide Next, Load, SeenBefore;
        if s.at.AtTable? && e.Walk? {
          SeenNow(j, m, events, s'.at.slot, s'.at.pte);
        } else {
          SeenEarlier(j, m, events, s'.at.slot, s'.at.pte);
        }
      }
    }
  }

  lemma SeenNow(j: Job, m: Ram, events: seq<Event>, slot: bv64, pte: Entry)
    requires events != [] && Load(Play(j, m, events[..|events| - 1]).ram, FormatFor(j), slot) == pte
    ensures SeenBefore(j, m, events, slot, pte)
  {
  }

  /** Entries come from memory when they are read, and stay the same until the walk moves on. */
  lemma StepKeepsEntry(j: Job, s: State, e: Event)
    requires var at := Next(j, s, e).at; at.AtEntry? || at.AtLeaf?
    ensures
      var at := Next(j, s, e).at;
      if s.at.AtTable? && e.Walk? then Load(s.ram, FormatFor(j), at.slot) == at.pte
      else (s.at.AtEntry? || s.at.AtLeaf?) && s.at.slot == at.slot && s.at.pte == at.pte
  {
    hide Load, Flag, Permits, HasHva, Mark, NonCanonical, Root, PdptEntry, NextTable, PageAddress, EntryAddr, Index;
  }

  /** Every byte the next step changes is the first of an aligned entry that still has a value the walk
      has read before and found to permit the access; one flag of it is set. */
  lemma MarksWhatItRead(j: Job, m: Ram, events: seq<Event>, a: bv64)
    requires var s := Play(j, m, events); Advance(j, s).ram(a) != s.ram(a)
    ensures
      var s := Play(j, m, events);
      var pte := Load(s.ram, FormatFor(j), a);
      && Aligned(FormatFor(j), a) && Permits(pte, j.pg.user, j.acc.write) && SeenBefore(j, m, events, a, pte)
      && (Advance(j, s).ram(a) == s.ram(a) | ACCESSED || Advance(j, s).ram(a) == s.ram(a) | DIRTY)
  {
    NoWriteIsLost(j, m, events);
    ReadsWereThere(j, m, events);
    var s := Play(j, m, events);
    hide Play, Advance, Load, Permits, Aligned, SeenBefore;
    AdvanceMarks(j, s, a);
  }

  // ---------------------------------------------------------------------------
  // What an outcome means
  // ---------------------------------------------------------------------------

  /** The walk of one table that reads each level's entry in a memory of its own, in the order of `ms`;
      nothing if there are too few of them. */
  function WalkThrough(j: Job, ms: seq<Ram>, level: Level, table: bv64): Option<Outcome>
    decreases level
  {
    if !HasHva(j.segs, table, PAGE_SIZE) then Some(NotBacked)
    else if ms == [] then None
    else DecideThrough(j, ms[1..], level, Load(ms[0], FormatFor(j), SlotIn(j, level, table)))
  }

  function DecideThrough(j: Job, ms: seq<Ram>, level: Level, pte: Entry): Option<Outcome>
    decreases level, 0
  {
    match Decide(FormatFor(j), level, j.pg.user, j.acc, pte, j.gla)
    case Deny(code) => Some(PageFault(code, j.gla))
    case Reserved(code) => Some(PageFault(code, j.gla))
    case Page(gpa) => Some(Address(gpa))
    case Descend(next) => WalkThrough(j, ms, level - 1, next)
  }

  /** The architectural translation, with each entry read in a memory of its own. */
  function Through(j: Job, ms: seq<Ram>): Option<Outcome> {
    if NonCanonical(j.pg.long64, j.gla) then Some(ProtectionFault)
    else match j.pg.mode
      case Flat => Some(Address(j.gla))
      case Legacy32 => WalkThrough(j, ms, 1, Root(Legacy32, j.pg.cr3))
      case Pae =>
        if !HasHva(j.segs, Root(Pae, j.pg.cr3), 32) then Some(NotBacked)
        else if ms == [] then None
        else
          var pte := Load(ms[0], Wide, PdptEntry(j.pg, j.gla));
          if !Flag(pte, PG_V) then Some(PageFault(PfErrorCode(j.pg.user, j.acc, false, pte), j.gla))
          else WalkThrough(j, ms[1..], 1, NextTable(pte))
      case FourLevel => WalkThrough(j, ms, 3, Root(FourLevel, j.pg.cr3))
  }

  /** What is left of the translation at a position. */
  function Rest(j: Job, at: Position, ms: seq<Ram>): Option<Outcome> {
    match at
    case Begin => Through(j, ms)
    case AtTable(level, table) => WalkThrough(j, ms, level, table)
    case AtEntry(level, _, pte) => DecideThrough(j, ms, level, pte)
    case AtLeaf(level, _, pte) => Some(Address(PageAddress(FormatFor(j), level, pte, j.gla)))
    case Finished(o) => Some(o)
  }

  /** The step from this position reads an entry. */
  predicate Reads(j: Job, at: Position) {
    match at
    case Begin => j.pg.mode.Pae? && !NonCanonical(j.pg.long64, j.gla) && HasHva(j.segs, Root(Pae, j.pg.cr3), 32)
    case AtTable(_, table) => HasHva(j.segs, table, PAGE_SIZE)
    case _ => false
  }

  lemma RootedRest(j: Job, m: Ram, ms: seq<Ram>)
    ensures Rest(j, Begin, (if Reads(j, Begin) then [m] else []) + ms) == Rest(j, Rooted(j, m), ms)
  {
    hide Load, Flag, HasHva, NonCanonical, Root, PdptEntry, NextTable, PfErrorCode, WalkThrough;
    assert [] + ms == ms && ([m] + ms)[0] == m && ([m] + ms)[1..] == ms;
  }

  lemma ReadRest(j: Job, m: Ram, level: Level, table: bv64, ms: seq<Ram>)
    ensures Rest(j, AtTable(level, table), (if Reads(j, AtTable(level, table)) then [m] else []) + ms) ==
            Rest(j, ReadEntry(j, m, level, table), ms)
  {
    hide Load, HasHva, SlotIn, DecideThrough, Permits;
    assert [] + ms == ms && ([m] + ms)[0] == m && ([m] + ms)[1..] == ms;
    DeniedRest(j, ms, level, Load(m, FormatFor(j), SlotIn(j, level, table)));
  }

  lemma DeniedRest(j: Job, ms: seq<Ram>, level: Level, pte: Entry)
    ensures !Permits(pte, j.pg.user, j.acc.write) ==> Rest(j, Fault(j, false, pte), ms) == DecideThrough(j, ms, level, pte)
  {
    hide Permits, Flag, PfErrorCode, PageAddress, NextTable;
  }

  lemma OnwardRest(j: Job, ms: seq<Ram>, level: Level, slot: bv64, pte: Entry)
    requires Permits(pte, j.pg.user, j.acc.write)
    ensures DecideThrough(j, ms, level, pte) == Rest(j, Onward(j, level, slot, pte), ms)
  {
    hide Permits, Flag, PfErrorCode, PageAddress, NextTable, WalkThrough;
  }

  /** A step that does not start over does its part of the translation. */
  lemma AdvanceRest(j: Job, s: State, ms: seq<Ram>)
    requires Sound(j, s.at) && !Advance(j, s).at.Begin?
    ensures Rest(j, s.at, (if Reads(j, s.at) then [s.ram] else []) + ms) == Rest(j, Advance(j, s).at, ms)
  {
    hide Mark, Aligned, PageAligned, Permits, Through, WalkThrough, DecideThrough, Rooted, ReadEntry, Onward, PageAddress,
      Flag, MarksDirty;
    match s.at
    case Begin => RootedRest(j, s.ram, ms);
    case AtTable(level, table) => ReadRest(j, s.ram, level, table, ms);
    case AtEntry(level, slot, pte) =>
      assert [] + ms == ms;
      OnwardRest(j, ms, level, slot, pte);
    case _ =>
  }

  // ---------------------------------------------------------------------------
  // The moments at which entries were read
  // ---------------------------------------------------------------------------

  ghost predicate Moments(ts: seq<nat>, n: nat) {
    && (forall i | 0 <= i < |ts| :: ts[i] < n)
    && (forall i, k | 0 <= i < k < |ts| :: ts[i] < ts[k])
  }

  /** The memory at each of the moments. */
  function Rams(j: Job, m: Ram, events: seq<Event>, ts: seq<nat>): (ms: seq<Ram>)
    requires forall i | 0 <= i < |ts| :: ts[i] < |events|
    ensures |ms| == |ts|
  {
    if ts == [] then [] else Rams(j, m, events, ts[..|ts| - 1]) + [Play(j, m, events[..ts[|ts| - 1]]).ram]
  }

  /** Having read entries in the memories `ms`, the walk is at `at`. */
  ghost predicate Tracks(j: Job, ms: seq<Ram>, at: Position) {
    forall rest: seq<Ram> :: Through(j, ms + rest) == Rest(j, at, rest)
  }

  lemma {:induction false} RamsEarlier(j: Job, m: Ram, events: seq<Event>, ts: seq<nat>)
    requires events != [] && forall i | 0 <= i < |ts| :: ts[i] < |events| - 1
    ensures Rams(j, m, events, ts) == Rams(j, m, events[..|events| - 1], ts)
  {
    if ts != [] {
      RamsEarlier(j, m, events, ts[..|ts| - 1]);
      assert events[..|events| - 1][..ts[|ts| - 1]] == events[..ts[|ts| - 1]];
    }
  }

  lemma TracksOn(j: Job, s: State, ms: seq<Ram>)
    requires Sound(j, s.at) && Tracks(j, ms, s.at) && !Advance(j, s).at.Begin?
    ensures Tracks(j, if Reads(j, s.at) then ms + [s.ram] else ms, Advance(j, s).at)
  {
    hide Through, Rest, Advance, Reads, Sound;
    var read := if Reads(j, s.at) then [s.ram] else [];
    assert ms + read == if Reads(j, s.at) then ms + [s.ram] else ms;
    forall rest: seq<Ram>
      ensures Through(j, (ms + read) + rest) == Rest(j, Advance(j, s).at, rest)
    {
      assert (ms + read) + rest == ms + (read + rest);
      AdvanceRest(j, s, rest);
    }
  }

  lemma TracksBegin(j: Job)
    ensures Tracks(j, [], Begin)
  {
    hide Through;
    assert forall rest: seq<Ram> :: [] + rest == rest;
  }

  /** The moments, since the walk last started over, at which it read its entries. */
  lemma {:induction false} ReadMoments(j: Job, m: Ram, events: seq<Event>) returns (ts: seq<nat>)
    ensures Moments(ts, |events|) && Tracks(j, Rams(j, m, events, ts), Play(j, m, events).at)
  {
    hide Tracks, Advance, Sound, Reads;
    ts := [];
    TracksBegin(j);
    if events != [] {
      var before, e := events[..|events| - 1], events[|events| - 1];
      var s := Play(j, m, before);
      if !Play(j, m, events).at.Begin? || e.Guest? {
        ts := ReadMoments(j, m, before);
        RamsEarlier(j, m, events, ts);
        if e.Walk? {
          NoWriteIsLost(j, m, before);
          TracksOn(j, s, Rams(j, m, events, ts));
          if Reads(j, s.at) {
            var last := |before|;
            assert (ts + [last])[..|ts|] == ts && (ts + [last])[|ts|] == last;
            ts := ts + [last];
          }
        }
      }
    }
  }

  /** Whatever the guest writes and whenever: a finished walk has the outcome of the architectural
      translation that reads its entries at increasing moments of the run. */
  lemma OutcomeIsReal(j: Job, m: Ram, events: seq<Event>)
    requires Play(j, m, events).at.Finished?
    ensures exists ts: seq<nat> :: Moments(ts, |events|) &&
              Through(j, Rams(j, m, events, ts)) == Some(Play(j, m, events).at.outcome)
  {
    hide Through, Play;
    var ts := ReadMoments(j, m, events);
    var ms := Rams(j, m, events, ts);
    assert ms + [] == ms;
  }

  // ---------------------------------------------------------------------------
  // Runs in which only Accessed and Dirty flags change
  // ---------------------------------------------------------------------------

  ghost predicate AllLike(f: Format, m: Ram, ms: seq<Ram>) {
    forall i | 0 <= i < |ms| :: SameButAd(f, m, ms[i])
  }

  lemma {:induction false} WalkQuiet(j: Job, m: Ram, ms: seq<Ram>, level: Level, table: bv64)
    requires AllLike(FormatFor(j), m, ms) && PageAligned(table) && WalkThrough(j, ms, level, table).Some?
    ensures WalkThrough(j, ms, level, table).value ==
            WalkTable(m, j.segs, j.pg.user, j.acc, FormatFor(j), level, table, j.gla).outcome
    decreases level
  {
    hide Index, Aligned, PageAligned, EntryAddr, Load, SameEntryButAd, SameButAd, HasHva, Decide;
    if HasHva(j.segs, table, PAGE_SIZE) {
      var f, slot := FormatFor(j), SlotIn(j, level, table);
      var e, e' := Load(m, f, slot), Load(ms[0], f, slot);
      EntryAligned(f, table, level, j.gla);
      LoadSameButAd(f, m, ms[0], slot);
      SameDecision(f, level, j.pg.user, j.acc, e, e', j.gla);
      DescendAligned(f, level, j.pg.user, j.acc, e, j.gla);
      var d := Decide(f, level, j.pg.user, j.acc, e, j.gla);
      if d.Descend? {
        WalkQuiet(j, m, ms[1..], level - 1, d.table);
      }
    }
  }

  lemma ThroughQuiet(j: Job, m: Ram, ms: seq<Ram>)
    requires AllLike(FormatFor(j), m, ms) && Through(j, ms).Some?
    ensures Through(j, ms).value == Translate(m, j.segs, j.pg, j.acc, j.gla).outcome
  {
    hide Load, SameEntryButAd, NextTable, Flag, SameButAd, PfErrorCode, NonCanonical, PdptEntry, PageAligned, WalkTable,
      WalkThrough, HasHva, Root, PageAddress, Permits, Aligned;
    RootsAligned(j.pg.cr3);
    match j.pg.mode
    case Flat =>
    case Legacy32 => WalkLater(j, m, ms, 1, Root(Legacy32, j.pg.cr3));
    case FourLevel => WalkLater(j, m, ms, 3, Root(FourLevel, j.pg.cr3));
    case Pae =>
      if ms != [] {
        var slot := PdptEntry(j.pg, j.gla);
        var e, e' := Load(m, Wide, slot), Load(ms[0], Wide, slot);
        PdptAligned(j.pg, j.gla);
        LoadSameButAd(Wide, m, ms[0], slot);
        SameMeaning(Wide, 1, e, e', j.pg.user, j.acc, j.gla);
        NextTableAligned(e);
        WalkLater(j, m, ms[1..], 1, NextTable(e));
      }
  }

  lemma WalkLater(j: Job, m: Ram, ms: seq<Ram>, level: Level, table: bv64)
    requires AllLike(FormatFor(j), m, ms) && PageAligned(table)
    ensures
      var o := WalkThrough(j, ms, level, table);
      o.Some? ==> o.value == WalkTable(m, j.segs, j.pg.user, j.acc, FormatFor(j), level, table, j.gla).outcome
  {
    if WalkThrough(j, ms, level, table).Some? {
      WalkQuiet(j, m, ms, level, table);
    }
  }

  /** The guest's writes change Accessed and Dirty flags at most, as other walks of the same tables do. */
  ghost predicate Quiet(f: Format, m: Ram, events: seq<Event>) {
    forall k: nat | k <= |events| :: SameButAd(f, m, Written(m, events[..k]))
  }

  lemma AddedIsLike(f: Format, m: Ram, m': Ram, m'': Ram)
    requires SameButAd(f, m, m') && FlagsAdded(f, m', m'')
    ensures SameButAd(f, m, m'')
  {
    hide Aligned;
    forall a: bv64
      ensures if Aligned(f, a) then m(a) & 0x9f == m''(a) & 0x9f else m(a) == m''(a)
    {
      assert if Aligned(f, a) then ByteAdds(m'(a), m''(a)) else m''(a) == m'(a);
    }
  }

  lemma {:induction false} RamsLike(j: Job, m: Ram, events: seq<Event>, ts: seq<nat>)
    requires Quiet(FormatFor(j), m, events) && forall i | 0 <= i < |ts| :: ts[i] < |events|
    ensures AllLike(FormatFor(j), m, Rams(j, m, events, ts))
  {
    hide SameButAd, FlagsAdded, Play, Written, Sound;
    if ts != [] {
      RamsLike(j, m, events, ts[..|ts| - 1]);
      var before := events[..ts[|ts| - 1]];
      NoWriteIsLost(j, m, before);
      AddedIsLike(FormatFor(j), m, Written(m, before), Play(j, m, before).ram);
    }
  }

  /** Other walks do not disturb a walk: its outcome is the translation in the memory it began with. */
  lemma QuietOutcome(j: Job, m: Ram, events: seq<Event>)
    requires Quiet(FormatFor(j), m, events) && Play(j, m, events).at.Finished?
    ensures Play(j, m, events).at.outcome == Translate(m, j.segs, j.pg, j.acc, j.gla).outcome
  {
    OutcomeIsReal(j, m, events);
    hide Play, Through, Translate, Quiet, AllLike;
    var ts: seq<nat> :| Moments(ts, |events|) && Through(j, Rams(j, m, events, ts)) == Some(Play(j, m, events).at.outcome);
    RamsLike(j, m, events, ts);
    ThroughQuiet(j, m, Rams(j, m, events, ts));
  }

  // ---------------------------------------------------------------------------
  // A walk that is left alone
  // ---------------------------------------------------------------------------

  /** `n` steps without a write by the guest. */
  function Alone(j: Job, s: State, n: nat): State
    decreases n
  {
    if n == 0 then s else Alone(j, Advance(j, s), n - 1)
  }

  lemma {:induction false} AloneMore(j: Job, s: State, k: nat, n: nat)
    ensures Alone(j, Alone(j, s, k), n) == Alone(j, s, k + n)
    decreases k
  {
    hide Advance;
    if k > 0 {
      AloneMore(j, Advance(j, s), k - 1, n);
    }
  }

  lemma AloneFew(j: Job, s: State)
    ensures Alone(j, s, 1) == Advance(j, s) && Alone(j, s, 2) == Advance(j, Advance(j, s))
    ensures Alone(j, s, 3) == Advance(j, Advance(j, Advance(j, s)))
  {
    hide Advance;
    var s1 := Advance(j, s);
    var s2 := Advance(j, s1);
    assert Alone(j, s2, 1) == Alone(j, Advance(j, s2), 0);
    assert Alone(j, s1, 2) == Alone(j, s2, 1) && Alone(j, s1, 1) == Alone(j, s2, 0);
  }

  /** The walk of the table in `m0`. */
  function TableWalk(j: Job, m0: Ram, level: Level, table: bv64): Walked {
    WalkTable(m0, j.segs, j.pg.user, j.acc, FormatFor(j), level, table, j.gla)
  }

  function PassOf(at: Position): Pass {
    if at.Finished? then Done(at.outcome) else Restart
  }

  /** A pass has ended as `w` says, and has marked what `w` says, in memory `m0`. */
  ghost predicate PassEnds(j: Job, m0: Ram, w: Walked, s: State) {
    (s.at.Finished? || s.at.Begin?) && PassMeets(PassOf(s.at), w, j.acc, m0, s.ram)
  }

  /** At the leaf `slot` of a pass that began in `m0`, having marked it accessed in `m`. */
  lemma LeafPass(j: Job, m0: Ram, before: Ram, m: Ram, visited: seq<bv64>, level: Level, slot: bv64, pte: Entry)
    requires AdUpdate(m0, before, visited, []) && AdUpdate(m0, m, visited + [slot], [])
    requires LeafLoaded(FormatFor(j), before, m, slot, pte)
    ensures PassEnds(j, m0, Prepend(visited, Walked(Address(PageAddress(FormatFor(j), level, pte, j.gla)), [slot])),
                     Advance(j, State(m, AtLeaf(level, slot, pte))))
  {
    hide Load, Value, Flag, FlagSet, AdUpdate, Store, WithFlag, PageAddress, WithAd;
    var f := FormatFor(j);
    var s := Advance(j, State(m, AtLeaf(level, slot, pte)));
    LeafWalk(visited, slot, PageAddress(f, level, pte, j.gla));
    EntryFacts(before, f, slot);
    EntryFacts(m, f, slot);
    if s.at.Begin? {
      NotAccessedBefore(m0, before, visited, slot);
    } else if j.acc.write {
      if Flag(pte, PG_M) && !Flag(pte, PG_A) {
        StoreSetsAd(before, f, slot, slot);
        FlagsStaySet(before(slot), true, false);
      }
      DirtyEntry(f, m0, m, s.ram, visited + [slot], slot);
    }
  }

  /** The first step at a table: a stop, as the walk in `m0` says, or a permitted entry as it is in memory. */
  lemma ReadStep(j: Job, m0: Ram, m: Ram, visited: seq<bv64>, level: Level, table: bv64)
    requires Sound(j, AtTable(level, table))
    requires AdUpdate(m0, m, visited, []) && forall a <- visited :: Aligned(FormatFor(j), a)
    ensures
      var w, s := TableWalk(j, m0, level, table), Advance(j, State(m, AtTable(level, table)));
      var at := s.at;
      && s.ram == m &&
      if at.Finished? then PassEnds(j, m0, Prepend(visited, w), State(m, at))
      else
        && at == AtEntry(level, at.slot, Load(m, FormatFor(j), at.slot)) && Aligned(FormatFor(j), at.slot)
        && Permits(at.pte, j.pg.user, j.acc.write) && Fits(FormatFor(j), Value(at.pte))
        && DecidedWalk(m0, j.segs, j.pg.user, j.acc, FormatFor(j), level, table, j.gla, at.slot,
                       Decide(FormatFor(j), level, j.pg.user, j.acc, at.pte, j.gla))
  {
    var f := FormatFor(j);
    var w := TableWalk(j, m0, level, table);
    hide Load, Value, Flag, AdUpdate, HasHva, Permits, Fits, Aligned, PageAligned, Index, EntryAddr, PtpIndex, WalkTable,
      PfErrorCode, PassMeets, Prepend, DecidedWalk, Decide;
    assert visited + [] == visited;
    if !HasHva(j.segs, table, PAGE_SIZE) {
      NotBackedWalk(m0, j.segs, j.pg.user, j.acc, f, level, table, j.gla);
      StopMeets(NotBacked, visited, w, j.acc, m0, m);
    } else {
      var slot := SlotIn(j, level, table);
      var pte := Load(m, f, slot);
      SlotFacts(m0, m, j.pg.user, j.acc, f, level, table, j.gla, visited);
      WalkFromSlot(m0, j.segs, j.pg.user, j.acc, f, level, table, j.gla);
      EntryFacts(m, f, slot);
      if !Permits(pte, j.pg.user, j.acc.write) {
        DecidedCases(m0, j.segs, j.pg.user, j.acc, f, level, table, j.gla, slot, pte);
        StopMeets(w.outcome, visited, w, j.acc, m0, m);
      }
    }
  }

  /** With nobody else writing, the entry just read can be marked accessed. */
  lemma MarkStep(j: Job, m0: Ram, m: Ram, visited: seq<bv64>, level: Level, slot: bv64, pte: Entry)
    requires AdUpdate(m0, m, visited, []) && pte == Load(m, FormatFor(j), slot)
    ensures
      var s := Advance(j, State(m, AtEntry(level, slot, pte)));
      && s.at == Onward(j, level, slot, pte) && AdUpdate(m0, s.ram, visited + [slot], [])
      && LeafLoaded(FormatFor(j), m, s.ram, slot, pte)
  {
    hide Load, Value, Flag, FlagSet, AdUpdate, Store, WithFlag, Onward;
    EntryFacts(m, FormatFor(j), slot);
    AccessEntry(FormatFor(j), m0, m, Advance(j, State(m, AtEntry(level, slot, pte))).ram, visited, slot);
  }

  /** What comes of a permitted entry that was just read. */
  lemma EntryStep(j: Job, m0: Ram, m: Ram, visited: seq<bv64>, level: Level, table: bv64, slot: bv64, pte: Entry)
    requires AdUpdate(m0, m, visited, []) && pte == Load(m, FormatFor(j), slot) && Fits(FormatFor(j), Value(pte))
    requires Permits(pte, j.pg.user, j.acc.write) && (FormatFor(j).Narrow? ==> level <= 1)
    requires DecidedWalk(m0, j.segs, j.pg.user, j.acc, FormatFor(j), level, table, j.gla, slot,
                         Decide(FormatFor(j), level, j.pg.user, j.acc, pte, j.gla))
    ensures
      var s := Advance(j, State(m, AtEntry(level, slot, pte)));
      var w := Prepend(visited, TableWalk(j, m0, level, table));
      match s.at
      case Finished(_) => PassEnds(j, m0, w, s)
      case AtLeaf(_, _, _) => PassEnds(j, m0, w, Advance(j, s))
      case AtTable(below, next) =>
        && below == level - 1 && AdUpdate(m0, s.ram, visited + [slot], []) && Sound(j, s.at)
        && w == Prepend(visited + [slot], TableWalk(j, m0, below, next))
      case _ => false
  {
    hide Load, Value, Flag, AdUpdate, Permits, Fits, Aligned, PageAligned, WalkTable, PageAddress, PfErrorCode, PassMeets,
      Prepend, DecidedWalk, Decide, LeafLoaded, NextTable, ClearTable, Advance;
    var f, w := FormatFor(j), TableWalk(j, m0, level, table);
    MarkStep(j, m0, m, visited, level, slot, pte);
    var s := Advance(j, State(m, AtEntry(level, slot, pte)));
    DecidedCases(m0, j.segs, j.pg.user, j.acc, f, level, table, j.gla, slot, pte);
    match s.at
    case Finished(_) => StopMeets(w.outcome, visited, w, j.acc, m0, s.ram);
    case AtLeaf(_, _, _) => LeafPass(j, m0, m, s.ram, visited, level, slot, pte);
    case AtTable(below, next) =>
      ClearedTable(f, pte);
      NextTableAligned(pte);
      PrependMore(visited, slot, TableWalk(j, m0, below, next));
  }

  /** Left alone at a table, the walk finishes its pass as the walk in `m0` says. */
  lemma {:induction false} TablePass(j: Job, m0: Ram, m: Ram, visited: seq<bv64>, level: Level, table: bv64) returns (n: nat)
    requires Sound(j, AtTable(level, table))
    requires AdUpdate(m0, m, visited, []) && forall a <- visited :: Aligned(FormatFor(j), a)
    ensures n <= 2 * level + 3
    ensures PassEnds(j, m0, Prepend(visited, TableWalk(j, m0, level, table)), Alone(j, State(m, AtTable(level, table)), n))
    decreases level
  {
    hide Load, Value, AdUpdate, Permits, Fits, Aligned, PageAligned, TableWalk, PassEnds, Prepend, DecidedWalk, Decide, Advance,
      Alone;
    var s := State(m, AtTable(level, table));
    var s1 := Advance(j, s);
    ReadStep(j, m0, m, visited, level, table);
    AloneFew(j, s);
    if s1.at.Finished? {
      return 1;
    }
    var slot := s1.at.slot;
    EntryStep(j, m0, m, visited, level, table, slot, s1.at.pte);
    var s2 := Advance(j, s1);
    if s2.at.Finished? {
      return 2;
    }
    if s2.at.AtLeaf? {
      return 3;
    }
    n := TablePass(j, m0, s2.ram, visited + [slot], s2.at.level, s2.at.table);
    AloneMore(j, s, 2, n);
    n := n + 2;
  }

  /** Left alone from its beginning, a pass ends as the architectural translation says. */
  lemma BeginPass(j: Job, m: Ram) returns (n: nat)
    ensures n <= 10 && n > 0
    ensures PassEnds(j, m, Translate(m, j.segs, j.pg, j.acc, j.gla), Alone(j, State(m, Begin), n))
  {
    hide Load, NextTable, Flag, PfErrorCode, NonCanonical, PdptEntry, PageAligned, WalkTable, HasHva, Root, AdUpdate, FlagSet,
      ReadEntry, Mark, Onward, Aligned;
    var s := State(m, Begin);
    var s1 := Advance(j, s);
    var w := Translate(m, j.segs, j.pg, j.acc, j.gla);
    NothingUpdated(m);
    assert Alone(j, s, 1) == s1;
    if s1.at.Finished? {
      return 1;
    }
    AdvanceSound(j, s);
    n := TablePass(j, m, m, [], s1.at.level, s1.at.table);
    PrependNothing(w);
    AloneMore(j, s, 1, n);
    n := n + 1;
  }

  /** Left alone from its beginning, the walk ends within two passes with the architectural outcome, and has
      marked exactly the entries of that walk. */
  lemma TwoPasses(j: Job, m: Ram) returns (n: nat)
    ensures n <= 20
    ensures
      var s, w := Alone(j, State(m, Begin), n), Translate(m, j.segs, j.pg, j.acc, j.gla);
      s.at == Finished(w.outcome) && AdUpdate(m, s.ram, w.visited, Dirtied(j.acc, w))
  {
    hide Alone, Translate, AdUpdate, FlagSet, SameButAd, Aligned, Dirtied;
    var f, w := FormatFor(j), Translate(m, j.segs, j.pg, j.acc, j.gla);
    n := BeginPass(j, m);
    var s1 := Alone(j, State(m, Begin), n);
    if s1.at.Begin? {
      TranslateVisitsAligned(m, j.segs, j.pg, j.acc, j.gla);
      AdUpdateKeepsRest(f, m, s1.ram, w.visited, []);
      TranslateIgnoresAd(f, m, s1.ram, j.segs, j.pg, j.acc, j.gla);
      AccessedNow(m, s1.ram, w.visited, [], |w.visited| - 1);
      var n' := BeginPass(j, s1.ram);
      assert s1 == State(s1.ram, Begin);
      UpdateTwice(m, s1.ram, Alone(j, s1, n').ram, w.visited, Dirtied(j.acc, w));
      AloneMore(j, State(m, Begin), n, n');
      n := n + n';
    }
  }

  // ---------------------------------------------------------------------------
  // When a walk ends
  // ---------------------------------------------------------------------------

  /** A bound on the steps that are left of a pass. */
  function StepsLeft(at: Position): nat {
    match at
    case AtTable(level, _) => 2 * level + 3
    case AtEntry(level, _, _) => 2 * level + 2
    case AtLeaf(_, _, _) => 1
    case _ => 0
  }

  lemma AdvanceCloser(j: Job, s: State)
    ensures StepsLeft(s.at) > 0 ==> StepsLeft(Advance(j, s).at) < StepsLeft(s.at)
  {
    hide Flag, Permits, HasHva, Mark, NextTable, PageAddress, PfErrorCode, Load, SlotIn, MarksDirty;
  }

  lemma {:induction false} PassOver(j: Job, s: State) returns (n: nat)
    ensures n <= StepsLeft(s.at) && StepsLeft(Alone(j, s, n).at) == 0
    decreases StepsLeft(s.at)
  {
    hide Advance;
    n := 0;
    if StepsLeft(s.at) > 0 {
      AdvanceCloser(j, s);
      n := PassOver(j, Advance(j, s));
      n := n + 1;
    }
  }

  /** Whatever has happened before: once the guest pauses for 29 steps, the walk has ended. */
  lemma EndsInPause(j: Job, m: Ram, events: seq<Event>) returns (n: nat)
    ensures n <= 29 && Alone(j, Play(j, m, events), n).at.Finished?
  {
    hide Alone, Play, Translate, AdUpdate;
    var s := Play(j, m, events);
    n := PassOver(j, s);
    var s1 := Alone(j, s, n);
    if s1.at.Begin? {
      var n' := TwoPasses(j, s1.ram);
      assert s1 == State(s1.ram, Begin);
      AloneMore(j, s, n, n');
      n := n + n';
    }
  }

  /** A walk that the guest never lets finish: it changes the entry between each read and compare. */
  const STARVED := Job([Segment(0, PAGE_SIZE, true)], Paging(0, false, false, Legacy32), Access(false, false), 0)

  function Single(a: bv64, b: bv8): Bytes {
    (x: bv64) => if x == a then Some(b) else None
  }

  /** The guest flips an unused bit of the entry at address 0. */
  function Flip(m: Ram): Event {
    Guest(Single(1, m(1) ^ 0x02))
  }

  /** One round: to the table, to the entry, the guest's write, the failing compare. */
  function Round(m: Ram): seq<Event> {
    [Walk, Walk, Flip(m), Walk]
  }

  lemma StarvedTable()
    ensures Rooted(STARVED, (_: bv64) => 0) == AtTable(1, 0)
    ensures SlotIn(STARVED, 1, 0) == 0 && HasHva(STARVED.segs, 0, PAGE_SIZE)
  {
    assert STARVED.segs[0] in STARVED.segs && InSegment(STARVED.segs[0], 0, PAGE_SIZE);
  }

  lemma StarvedEntry(m: Ram)
    requires m(0) == 1
    ensures
      var pte := Load(m, Narrow, 0);
      && Permits(pte, false, false) && !Flag(pte, PG_A)
      && Load(Overwrite(m, Single(1, m(1) ^ 0x02)), Narrow, 0) != pte
  {
    var pte := Load(m, Narrow, 0);
    var b := m(1);
    assert b ^ 0x02 != b;
    assert Load(Overwrite(m, Single(1, b ^ 0x02)), Narrow, 0).b1 == b ^ 0x02;
    assert pte.b0 == 1 && pte.b1 == b;
    StarvedFlags(pte);
    hide Flag;
  }

  lemma StarvedFlags(pte: Entry)
    requires pte.b0 == 1
    ensures Flag(pte, PG_V) && !Flag(pte, PG_A)
  {
    assert Value(pte) & 0xff == 1;
  }

  lemma StarvedRound(m: Ram)
    requires m(0) == 1
    ensures
      var s := Next(STARVED, Advance(STARVED, Advance(STARVED, State(m, Begin))), Flip(m));
      Advance(STARVED, s).at.Begin? && Advance(STARVED, s).ram(0) == 1
  {
    StarvedTable();
    StarvedEntry(m);
    hide Load, Permits, Flag, HasHva, SlotIn;
    assert Rooted(STARVED, m) == AtTable(1, 0);
  }

  lemma PlayRound(m: Ram, events: seq<Event>)
    ensures
      var s := Play(STARVED, m, events);
      Play(STARVED, m, events + Round(s.ram)) ==
      Advance(STARVED, Next(STARVED, Advance(STARVED, Advance(STARVED, s)), Flip(s.ram)))
  {
    hide Advance;
    var s := Play(STARVED, m, events);
    var e1, e2 := events + [Walk], events + [Walk, Walk];
    var e3, e4 := events + [Walk, Walk, Flip(s.ram)], events + Round(s.ram);
    assert e1[..|e1| - 1] == events && e2[..|e2| - 1] == e1 && e3[..|e3| - 1] == e2 && e4[..|e4| - 1] == e3;
    assert Play(STARVED, m, e1) == Advance(STARVED, s);
    assert Play(STARVED, m, e2) == Advance(STARVED, Play(STARVED, m, e1));
    assert Play(STARVED, m, e3) == Next(STARVED, Play(STARVED, m, e2), Flip(s.ram));
  }

  /** Without a pause there is no bound: after any number of rounds the walk is back at its beginning. */
  lemma {:induction false} Starves(m: Ram, n: nat) returns (events: seq<Event>)
    requires m(0) == 1
    ensures |events| == 4 * n
    ensures Play(STARVED, m, events).at.Begin? && Play(STARVED, m, events).ram(0) == 1
  {
    hide Advance, Play;
    if n == 0 {
      events := [];
      PlayNothing(STARVED, m);
    } else {
      events := Starves(m, n - 1);
      var s := Play(STARVED, m, events);
      StarvedRound(s.ram);
      PlayRound(m, events);
      assert s == State(s.ram, Begin);
      events := events + Round(s.ram);
    }
  }

  lemma PlayNothing(j: Job, m: Ram)
    ensures Play(j, m, []) == State(m, Begin)
  {
  }
}
