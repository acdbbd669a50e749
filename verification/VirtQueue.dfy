/** Virtqueues: the descriptor chain walk, the 16-bit ring indices and the interrupt rule.

    A chain is specified as a list of descriptors: `ChainList` relates a head index to the finite
    list that following `next` fields and flattening indirect tables yields.  No such list exists
    for a malformed or cyclic chain.  Descriptors do not change during a walk. */
module VirtQueue {
  import Modular
  import opened Iovec

  const MAX_DESCRIPTORS := 512
  const U16 := 0x1_0000
  const VRING_ALIGN := 4096

  datatype Desc = Desc(addr: nat, len: nat, flags: bv16, next: nat)

  predicate HasNext(d: Desc) { d.flags & 1 != 0 }

  predicate Indirect(d: Desc) { d.flags & 4 != 0 }

  /** The descriptors of a queue and the indirect tables in guest memory: `table` gives the
      descriptors found at an address. */
  datatype Memory = Memory(desc: seq<Desc>, indirectAllowed: bool, table: (nat, nat) -> seq<Desc>)

  /** The `n` descriptors of the table that `d` points to. */
  function TableOf(m: Memory, d: Desc): (t: seq<Desc>)
    ensures |t| == d.len / 16
  {
    var t := m.table(d.addr, d.len);
    seq(d.len / 16, i requires 0 <= i => if i < |t| then t[i] else Desc(0, 0, 0, 0))
  }

  predicate ValidIndirect(m: Memory, d: Desc) {
    m.indirectAllowed && d.len % 16 == 0 && d.len / 16 > 0
  }

  // ---------------------------------------------------------------------------
  // What a chain is
  // ---------------------------------------------------------------------------

  /** `list` holds the descriptors from entry `i` of an indirect table to the end of its chain. */
  ghost predicate TableList(t: seq<Desc>, i: nat, list: seq<Desc>)
    decreases |list|
  {
    && list != [] && i < |t| && !Indirect(t[i]) && list[0] == t[i]
    && if HasNext(t[i]) then TableList(t, t[i].next, list[1..]) else |list| == 1
  }

  /** What descriptor `d` of the ring contributes. */
  ghost predicate Segment(m: Memory, d: Desc, seg: seq<Desc>) {
    if Indirect(d) then ValidIndirect(m, d) && TableList(TableOf(m, d), 0, seg) else seg == [d]
  }

  /** `list` is the flattened chain that begins at index `i`; its first `k` descriptors come from
      the descriptor at `i`. */
  ghost predicate ChainList(m: Memory, i: nat, list: seq<Desc>)
    decreases |list|
  {
    i < |m.desc| && exists k: nat :: SplitAt(m, i, list, k)
  }

  ghost predicate SplitAt(m: Memory, i: nat, list: seq<Desc>, k: nat)
    requires i < |m.desc|
    decreases |list|, 0
  {
    && 1 <= k <= |list| && Segment(m, m.desc[i], list[..k])
    && if HasNext(m.desc[i]) then ChainList(m, m.desc[i].next, list[k..]) else k == |list|
  }

  lemma {:induction false} TableUnique(t: seq<Desc>, i: nat, a: seq<Desc>, b: seq<Desc>)
    requires TableList(t, i, a) && TableList(t, i, b)
    ensures a == b
    decreases |a|
  {
    assert a == [a[0]] + a[1..] && b == [b[0]] + b[1..];
    if HasNext(t[i]) {
      TableUnique(t, t[i].next, a[1..], b[1..]);
    }
  }

  lemma SegmentUnique(m: Memory, d: Desc, a: seq<Desc>, b: seq<Desc>)
    requires Segment(m, d, a) && Segment(m, d, b)
    ensures a == b && a != []
  {
    if Indirect(d) {
      TableUnique(TableOf(m, d), 0, a, b);
    }
  }

  // ---------------------------------------------------------------------------
  // The walk so far
  // ---------------------------------------------------------------------------

  /** The chains from `head` are `done` followed by the chains from `next`. */
  ghost predicate Walked(m: Memory, head: nat, done: seq<Desc>, next: nat) {
    && (forall rest :: ChainList(m, next, rest) ==> ChainList(m, head, done + rest))
    && (forall list :: ChainList(m, head, list) ==>
          |list| > |done| && list[..|done|] == done && ChainList(m, next, list[|done|..]))
  }

  lemma WalkStart(m: Memory, head: nat)
    ensures Walked(m, head, [], head)
  {
    forall rest | ChainList(m, head, rest)
      ensures ChainList(m, head, [] + rest)
    {
      assert [] + rest == rest;
    }
    forall list | ChainList(m, head, list)
      ensures |list| > 0 && list[..0] == [] && ChainList(m, head, list[0..])
    {
      ChainNonempty(m, head, list);
      assert list[0..] == list;
    }
  }

  lemma ChainNonempty(m: Memory, head: nat, list: seq<Desc>)
    requires ChainList(m, head, list)
    ensures |list| > 0
  {
    var k: nat :| SplitAt(m, head, list, k);
  }

  lemma FirstSegment(m: Memory, i: nat, seg: seq<Desc>, list: seq<Desc>)
    requires ChainList(m, i, list) && Segment(m, m.desc[i], seg)
    ensures |seg| <= |list| && list[..|seg|] == seg
    ensures if HasNext(m.desc[i]) then ChainList(m, m.desc[i].next, list[|seg|..]) else list == seg
  {
    var k: nat :| SplitAt(m, i, list, k);
    SegmentUnique(m, m.desc[i], seg, list[..k]);
    assert list[..|list|] == list;
  }

  lemma AddSegment(m: Memory, i: nat, seg: seq<Desc>, rest: seq<Desc>)
    requires i < |m.desc| && Segment(m, m.desc[i], seg)
    requires if HasNext(m.desc[i]) then ChainList(m, m.desc[i].next, rest) else rest == []
    ensures ChainList(m, i, seg + rest)
  {
    SegmentUnique(m, m.desc[i], seg, seg);
    var list := seg + rest;
    assert list[..|seg|] == seg && list[|seg|..] == rest;
    assert SplitAt(m, i, list, |seg|);
  }

  lemma WalkOn(m: Memory, head: nat, done: seq<Desc>, next: nat, seg: seq<Desc>)
    requires Walked(m, head, done, next) && next < |m.desc| && Segment(m, m.desc[next], seg) && HasNext(m.desc[next])
    ensures Walked(m, head, done + seg, m.desc[next].next)
  {
    var next' := m.desc[next].next;
    hide ChainList, Segment;
    forall rest | ChainList(m, next', rest)
      ensures ChainList(m, head, done + seg + rest)
    {
      AddSegment(m, next, seg, rest);
      assert done + (seg + rest) == done + seg + rest;
    }
    forall list | ChainList(m, head, list)
      ensures |list| > |done + seg| && list[..|done + seg|] == done + seg && ChainList(m, next', list[|done + seg|..])
    {
      var tail := list[|done|..];
      FirstSegment(m, next, seg, tail);
      ChainNonempty(m, next', tail[|seg|..]);
      Cut(list, done, seg);
    }
  }

  lemma Cut(list: seq<Desc>, done: seq<Desc>, seg: seq<Desc>)
    requires |done + seg| <= |list| && list[..|done|] == done && list[|done|..][..|seg|] == seg
    ensures list[..|done + seg|] == done + seg && list[|done + seg|..] == list[|done|..][|seg|..]
  {
    assert list[..|done + seg|] == list[..|done|] + list[|done|..][..|seg|];
  }

  lemma WalkEnds(m: Memory, head: nat, done: seq<Desc>, next: nat, seg: seq<Desc>)
    requires Walked(m, head, done, next) && next < |m.desc| && Segment(m, m.desc[next], seg) && !HasNext(m.desc[next])
    ensures ChainList(m, head, done + seg)
    ensures forall list :: ChainList(m, head, list) ==> list == done + seg
  {
    AddSegment(m, next, seg, []);
    assert seg + [] == seg;
    forall list | ChainList(m, head, list)
      ensures list == done + seg
    {
      FirstSegment(m, next, seg, list[|done|..]);
      assert list == list[..|done|] + list[|done|..];
    }
  }

  /** If the next descriptor is malformed, or leads beyond the limit, no chain is within it. */
  lemma WalkFails(m: Memory, head: nat, done: seq<Desc>, next: nat)
    requires Walked(m, head, done, next)
    requires next < |m.desc| ==> forall seg :: Segment(m, m.desc[next], seg) ==> |done| + |seg| > MAX_DESCRIPTORS
    ensures NoShortChain(m, head)
  {
    hide ChainList;
    forall list | ChainList(m, head, list)
      ensures |list| > MAX_DESCRIPTORS
    {
      var seg := HeadSegment(m, next, list[|done|..]);
    }
  }

  /** No chain from `head` has at most 512 descriptors. */
  ghost predicate NoShortChain(m: Memory, head: nat) {
    forall list :: ChainList(m, head, list) ==> |list| > MAX_DESCRIPTORS
  }

  lemma HeadSegment(m: Memory, i: nat, list: seq<Desc>) returns (seg: seq<Desc>)
    requires ChainList(m, i, list)
    ensures i < |m.desc| && Segment(m, m.desc[i], seg) && |seg| <= |list|
  {
    var k: nat :| SplitAt(m, i, list, k);
    seg := list[..k];
  }

  // ---------------------------------------------------------------------------
  // The walk of an indirect table so far
  // ---------------------------------------------------------------------------

  ghost predicate TableWalked(t: seq<Desc>, done: seq<Desc>, next: nat) {
    && (forall rest :: TableList(t, next, rest) ==> TableList(t, 0, done + rest))
    && (forall list :: TableList(t, 0, list) ==>
          |list| > |done| && list[..|done|] == done && TableList(t, next, list[|done|..]))
  }

  lemma TableStart(t: seq<Desc>)
    ensures TableWalked(t, [], 0)
  {
    forall rest | TableList(t, 0, rest)
      ensures TableList(t, 0, [] + rest)
    {
      assert [] + rest == rest;
    }
    forall list | TableList(t, 0, list)
      ensures |list| > 0 && list[..0] == [] && TableList(t, 0, list[0..])
    {
      assert list[0..] == list;
    }
  }

  lemma TableOn(t: seq<Desc>, done: seq<Desc>, next: nat)
    requires TableWalked(t, done, next) && next < |t| && !Indirect(t[next]) && HasNext(t[next])
    ensures TableWalked(t, done + [t[next]], t[next].next)
  {
    var done' := done + [t[next]];
    forall rest | TableList(t, t[next].next, rest)
      ensures TableList(t, 0, done' + rest)
    {
      assert ([t[next]] + rest)[1..] == rest;
      assert TableList(t, next, [t[next]] + rest);
      assert done + ([t[next]] + rest) == done' + rest;
    }
    forall list | TableList(t, 0, list)
      ensures |list| > |done'| && list[..|done'|] == done' && TableList(t, t[next].next, list[|done'|..])
    {
      var tail := list[|done|..];
      assert list[..|done'|] == list[..|done|] + [tail[0]];
      assert TableList(t, t[next].next, tail[1..]);
      assert tail[1..] == list[|done'|..];
    }
  }

  lemma TableEnds(t: seq<Desc>, done: seq<Desc>, next: nat)
    requires TableWalked(t, done, next) && next < |t| && !Indirect(t[next]) && !HasNext(t[next])
    ensures TableList(t, 0, done + [t[next]])
  {
    assert TableList(t, next, [t[next]]);
  }

  lemma TableFails(t: seq<Desc>, done: seq<Desc>, next: nat, before: nat)
    requires TableWalked(t, done, next)
    requires next < |t| && !Indirect(t[next]) ==> before + |done| >= MAX_DESCRIPTORS
    ensures forall list :: TableList(t, 0, list) ==> before + |list| > MAX_DESCRIPTORS
  {
    hide TableList;
    forall list | TableList(t, 0, list)
      ensures before + |list| > MAX_DESCRIPTORS
    {
      TableHead(t, next, list[|done|..]);
    }
  }

  lemma TableHead(t: seq<Desc>, i: nat, list: seq<Desc>)
    requires TableList(t, i, list)
    ensures i < |t| && !Indirect(t[i])
  {
  }

  // ---------------------------------------------------------------------------
  // The walk
  // ---------------------------------------------------------------------------

  /** There is room for `room` entries in two separate buffers. */
  ghost predicate Buffers(iov: array<Iov>, flags: array?<bv16>, room: nat) {
    var a: object, b: object? := iov, flags;
    a != b && room <= iov.Length && (flags != null ==> room <= flags.Length)
  }

  /** The first descriptors of `done` have been copied out, as far as there is room. */
  ghost predicate Recorded(iov: array<Iov>, flags: array?<bv16>, room: nat, done: seq<Desc>)
    reads iov, flags
    requires Buffers(iov, flags, room)
  {
    forall k: nat | k < |done| && k < room ::
      iov[k] == Iov(done[k].addr, done[k].len) && (flags != null ==> flags[k] == done[k].flags)
  }

  method Record(iov: array<Iov>, flags: array?<bv16>, room: nat, ghost done: seq<Desc>, i: nat, d: Desc)
    requires Buffers(iov, flags, room)
    requires i == |done| && Recorded(iov, flags, room, done)
    modifies iov, flags
    ensures Recorded(iov, flags, room, done + [d])
  {
    if i >= room {
      return;
    }
    iov[i] := Iov(d.addr, d.len);
    if flags != null {
      flags[i] := d.flags;
    }
  }

  /** Follows the indirect table of `d`, after `i` descriptors.  Returns the new count, or none. */
  method WalkTable(m: Memory, d: Desc, iov: array<Iov>, flags: array?<bv16>, room: nat, ghost done: seq<Desc>, i0: nat)
      returns (ok: bool, i: nat, ghost seg: seq<Desc>)
    requires Buffers(iov, flags, room)
    requires i0 == |done| && i0 < MAX_DESCRIPTORS && Recorded(iov, flags, room, done)
    requires Indirect(d) && ValidIndirect(m, d)
    modifies iov, flags
    ensures i <= MAX_DESCRIPTORS + 1
    ensures ok ==>
              && Segment(m, d, seg) && i == i0 + |seg| && i0 < i <= MAX_DESCRIPTORS
              && Recorded(iov, flags, room, done + seg)
    ensures !ok ==> forall seg' :: Segment(m, d, seg') ==> |done| + |seg'| > MAX_DESCRIPTORS
  {
    hide TableOf, TableWalked, TableList;
    var t := TableOf(m, d);
    var next: nat := 0;
    i, seg, ok := i0, [], false;
    TableStart(t);
    assert done + seg == done;
    while true
      invariant i0 <= i == |done + seg| && i <= MAX_DESCRIPTORS && next < |t|
      invariant TableWalked(t, seg, next) && Recorded(iov, flags, room, done + seg)
      decreases MAX_DESCRIPTORS - i
    {
      var vp := t[next];
      if Indirect(vp) {
        TableFails(t, seg, next, |done|);
        return;
      }
      Record(iov, flags, room, done + seg, i, vp);
      assert done + seg + [vp] == done + (seg + [vp]);
      i := i + 1;
      if i > MAX_DESCRIPTORS {
        TableFails(t, seg, next, |done|);
        return;
      }
      if !HasNext(vp) {
        TableEnds(t, seg, next);
        seg, ok := seg + [vp], true;
        return;
      }
      TableOn(t, seg, next);
      next, seg := vp.next, seg + [vp];
      if next >= |t| {
        TableFails(t, seg, next, |done|);
        return;
      }
    }
  }

  /** Follows the chain from `head`.  The result is the length of the flattened chain if there is
      one of at most 512 descriptors, and -1 otherwise. */
  method WalkChain(m: Memory, head: nat, iov: array<Iov>, flags: array?<bv16>, room: nat) returns (n: int)
    requires Buffers(iov, flags, room)
    modifies iov, flags
    ensures n == -1 || 1 <= n <= MAX_DESCRIPTORS
    ensures n == -1 <==> NoShortChain(m, head)
    ensures forall list :: ChainList(m, head, list) && n != -1 ==> |list| == n && Recorded(iov, flags, room, list)
  {
    hide Walked, ChainList, Segment;
    var i: nat, next: nat := 0, head;
    ghost var done: seq<Desc> := [];
    WalkStart(m, head);
    while i < MAX_DESCRIPTORS
      invariant i == |done| <= MAX_DESCRIPTORS && Walked(m, head, done, next)
      invariant Recorded(iov, flags, room, done)
    {
      if next >= |m.desc| {
        WalkFails(m, head, done, next);
        return -1;
      }
      var vdir := m.desc[next];
      ghost var seg: seq<Desc>;
      if !Indirect(vdir) {
        Record(iov, flags, room, done, i, vdir);
        i := i + 1;
        seg := [vdir];
        DirectSegment(m, vdir);
      } else if !ValidIndirect(m, vdir) {
        InvalidSegment(m, vdir);
        WalkFails(m, head, done, next);
        return -1;
      } else {
        var ok: bool;
        ok, i, seg := WalkTable(m, vdir, iov, flags, room, done, i);
        if !ok {
          WalkFails(m, head, done, next);
          return -1;
        }
      }
      if !HasNext(vdir) {
        WalkEnds(m, head, done, next, seg);
        return i;
      }
      WalkOn(m, head, done, next, seg);
      done, next := done + seg, vdir.next;
    }
    TooLong(m, head, done, next);
    return -1;
  }

  lemma DirectSegment(m: Memory, d: Desc)
    requires !Indirect(d)
    ensures Segment(m, d, [d])
  {
  }

  lemma InvalidSegment(m: Memory, d: Desc)
    requires Indirect(d) && !ValidIndirect(m, d)
    ensures forall seg :: !Segment(m, d, seg)
  {
  }

  lemma TooLong(m: Memory, head: nat, done: seq<Desc>, next: nat)
    requires Walked(m, head, done, next) && |done| >= MAX_DESCRIPTORS
    ensures NoShortChain(m, head)
  {
  }

  // ---------------------------------------------------------------------------
  // Cyclic chains
  // ---------------------------------------------------------------------------

  /** Each index of `path` leads to the one after it. */
  ghost predicate Follows(m: Memory, path: seq<nat>) {
    forall k: nat | k + 1 < |path| ::
      path[k] < |m.desc| && HasNext(m.desc[path[k]]) && path[k + 1] == m.desc[path[k]].next
  }

  lemma {:induction false} ChainUnique(m: Memory, i: nat, a: seq<Desc>, b: seq<Desc>)
    requires ChainList(m, i, a) && ChainList(m, i, b)
    ensures a == b
    decreases |a|
  {
    var seg := HeadSegment(m, i, a);
    SegmentUnique(m, m.desc[i], seg, seg);
    FirstSegment(m, i, seg, a);
    FirstSegment(m, i, seg, b);
    assert a == a[..|seg|] + a[|seg|..] && b == b[..|seg|] + b[|seg|..];
    if HasNext(m.desc[i]) {
      ChainUnique(m, m.desc[i].next, a[|seg|..], b[|seg|..]);
    }
  }

  /** Following a path uses up at least one descriptor for each step. */
  lemma {:induction false} Advance(m: Memory, path: seq<nat>, list: seq<Desc>) returns (rest: seq<Desc>)
    requires path != [] && Follows(m, path) && ChainList(m, path[0], list)
    ensures ChainList(m, path[|path| - 1], rest) && |rest| + |path| <= |list| + 1
    decreases |path|
  {
    if |path| == 1 {
      return list;
    }
    var seg := HeadSegment(m, path[0], list);
    SegmentUnique(m, m.desc[path[0]], seg, seg);
    FirstSegment(m, path[0], seg, list);
    assert path[1] == m.desc[path[0]].next;
    rest := Advance(m, path[1..], list[|seg|..]);
  }

  /** Each entry of an indirect table on `path` leads to the one after it. */
  ghost predicate TableFollows(t: seq<Desc>, path: seq<nat>) {
    forall k: nat | k + 1 < |path| :: path[k] < |t| && HasNext(t[path[k]]) && path[k + 1] == t[path[k]].next
  }

  lemma {:induction false} TableAdvance(t: seq<Desc>, path: seq<nat>, list: seq<Desc>)
    requires path != [] && TableFollows(t, path) && TableList(t, path[0], list)
    ensures |path| <= |list| && TableList(t, path[|path| - 1], list[|path| - 1..])
    decreases |path|
  {
    if |path| == 1 {
      assert list[0..] == list;
    } else {
      assert path[1] == t[path[0]].next;
      TableAdvance(t, path[1..], list[1..]);
      assert list[1..][|path| - 2..] == list[|path| - 1..];
    }
  }

  /** An indirect table whose walk comes back to an entry contributes nothing. */
  lemma TableCyclesHaveNoList(t: seq<Desc>, path: seq<nat>, i: nat, j: nat)
    requires TableFollows(t, path) && i < j < |path| && path[i] == path[j]
    ensures forall list :: !TableList(t, path[0], list)
  {
    forall list
      ensures !TableList(t, path[0], list)
    {
      if TableList(t, path[0], list) {
        TableAdvance(t, path[..i + 1], list);
        TableAdvance(t, path[..j + 1], list);
        TableUnique(t, path[i], list[i..], list[j..]);
      }
    }
  }

  /** A walk that comes back to an index is no chain, so it is rejected. */
  lemma CyclesHaveNoChain(m: Memory, path: seq<nat>, i: nat, j: nat)
    requires Follows(m, path) && i < j < |path| && path[i] == path[j]
    ensures forall list :: !ChainList(m, path[0], list)
  {
    forall list
      ensures !ChainList(m, path[0], list)
    {
      if ChainList(m, path[0], list) {
        var a := Advance(m, path[..i + 1], list);
        var b := Advance(m, path[i..j + 1], a);
        ChainUnique(m, path[i], a, b);
      }
    }
  }

  // ---------------------------------------------------------------------------
  // The rings
  // ---------------------------------------------------------------------------

  datatype Used = Used(id: nat, len: nat)

  /** Truncation to 16 bits. */
  function Wrap(x: int): (r: nat)
    ensures r < U16
  {
    x % U16
  }

  /** The index `k` places after `o`. */
  function Nth(o: nat, k: int): nat {
    Wrap(o + k)
  }

  lemma WrapSum(a: int, c: int)
    ensures Wrap(Wrap(a) + c) == Wrap(a + c)
  {
    Modular.WrapSum(a, c, U16);
  }

  lemma WrapDifference(c: int, a: int)
    ensures Wrap(c - Wrap(a)) == Wrap(c - a)
  {
    Modular.WrapDifference(c, a, U16);
  }

  lemma WrapMoved(a: int, b: int, c: int)
    requires Wrap(a) == Wrap(b)
    ensures Wrap(a + c) == Wrap(b + c)
  {
    WrapSum(a, c);
    WrapSum(b, c);
  }

  lemma WrapSmall(a: nat)
    requires a < U16
    ensures Wrap(a) == a
  {
  }

  /** The rule of the event index: `e` was passed when the used index went from `o` to `n`. */
  predicate Crossed(e: nat, o: nat, n: nat) {
    Wrap(n - e - 1) < Wrap(n - o)
  }

  ghost predicate Passed(e: nat, o: nat, count: nat) {
    exists k: nat :: k < count && Nth(o, k) == e
  }

  /** The rule says exactly whether the index is in the wrapped interval. */
  lemma CrossedIff(e: nat, o: nat, count: nat)
    requires e < U16 && o < U16 && count < U16
    ensures Crossed(e, o, Nth(o, count)) <==> Passed(e, o, count)
  {
    hide Wrap;
    var n, k := Nth(o, count), Wrap(e - o);
    WrapSum(o + count, 0 - o);
    WrapSmall(count);
    assert Wrap(n - o) == count;
    WrapSum(e - o, o);
    WrapSmall(e);
    assert Nth(o, k) == e;
    forall k': nat | k' < count && Nth(o, k') == e
      ensures k' == k
    {
      WrapSum(o + k', 0 - o);
      WrapSmall(k');
    }
    WrapSum(o + count, 0 - e - 1);
    WrapDifference(count - 1, e - o);
    assert Wrap(n - e - 1) == Wrap(count - 1 - k);
    BelowCount(count, k);
  }

  lemma BelowCount(count: nat, k: nat)
    requires count < U16 && k < U16
    ensures Wrap(count - 1 - k) < count <==> k < count
  {
  }

  /** A queue as the device sees it.  `held` counts the chains fetched and not yet given back,
      `rejected` the malformed ones, `batch` those released since the last interrupt decision. */
  class Queue {
    const qsize: nat
    const used: array<Used>
    var lastAvail: nat
    var saveUsed: nat
    var usedIdx: nat
    ghost var held: nat
    ghost var rejected: nat
    ghost var batch: nat

    ghost predicate Valid()
      reads this
    {
      && 0 < qsize < U16 && used.Length == qsize
      && lastAvail < U16 && saveUsed < U16 && usedIdx < U16
      && Wrap(lastAvail - usedIdx) == Wrap(held + rejected)
      && usedIdx == Nth(saveUsed, batch)
    }

    constructor (size: nat)
      requires 0 < size < U16
      ensures Valid() && qsize == size && fresh(used)
      ensures lastAvail == 0 && usedIdx == 0 && held == 0 && rejected == 0 && batch == 0
    {
      qsize := size;
      used := new Used[size](_ => Used(0, 0));
      lastAvail, saveUsed, usedIdx := 0, 0, 0;
      held, rejected, batch := 0, 0, 0;
    }

    /** Fetches the next chain: none if the guest has made none available; a confused guest or a
        malformed chain is reported as -1, and only the latter uses up the ring entry. */
    method GetChain(m: Memory, availIdx: nat, availRing: seq<nat>, iov: array<Iov>, flags: array?<bv16>, room: nat)
        returns (n: int, head: nat)
      requires Valid() && Buffers(iov, flags, room) && availIdx < U16 && |availRing| == qsize == |m.desc|
      modifies this, iov, flags
      ensures Valid() && saveUsed == old(saveUsed) && usedIdx == old(usedIdx) && batch == old(batch)
      ensures var ndesc := Wrap(availIdx - old(lastAvail));
              if ndesc == 0 || ndesc > qsize
              then n == (if ndesc == 0 then 0 else -1) && lastAvail == old(lastAvail)
                   && held == old(held) && rejected == old(rejected)
              else lastAvail == Nth(old(lastAvail), 1) && head == availRing[old(lastAvail) % qsize]
                   && (n == -1 <==> NoShortChain(m, head)) && (n == -1 || 1 <= n <= MAX_DESCRIPTORS)
                   && held == old(held) + (if n == -1 then 0 else 1)
                   && rejected == old(rejected) + (if n == -1 then 1 else 0)
      ensures n > 0 ==> forall list :: ChainList(m, head, list) ==> |list| == n && Recorded(iov, flags, room, list)
    {
      hide Wrap;
      var idx := lastAvail;
      var ndesc := Wrap(availIdx - idx);
      head := 0;
      if ndesc == 0 {
        return 0, head;
      }
      if ndesc > qsize {
        return -1, head;
      }
      head := availRing[idx % qsize];
      lastAvail := Nth(lastAvail, 1);
      WrapSum(idx + 1, 0 - usedIdx);
      WrapMoved(idx - usedIdx, held + rejected, 1);
      n := WalkChain(m, head, iov, flags, room);
      if n == -1 {
        rejected := rejected + 1;
      } else {
        held := held + 1;
      }
    }

    /** Puts the last fetched chain back. */
    method RetChain()
      requires Valid() && held > 0
      modifies this
      ensures Valid() && lastAvail == Nth(old(lastAvail), -1) && held == old(held) - 1
      ensures rejected == old(rejected) && saveUsed == old(saveUsed) && usedIdx == old(usedIdx) && batch == old(batch)
    {
      hide Wrap;
      WrapSum(lastAvail - 1, 0 - usedIdx);
      WrapMoved(lastAvail - usedIdx, held + rejected, -1);
      lastAvail := Nth(lastAvail, -1);
      held := held - 1;
    }

    /** Hands a finished chain to the guest. */
    method RelChain(idx: nat, iolen: nat)
      requires Valid() && held > 0
      modifies this, used
      ensures Valid() && usedIdx == Nth(old(usedIdx), 1) && held == old(held) - 1 && batch == old(batch) + 1
      ensures used[..] == old(used[..])[old(usedIdx) % qsize := Used(idx, iolen)]
      ensures rejected == old(rejected) && saveUsed == old(saveUsed) && lastAvail == old(lastAvail)
    {
      hide Wrap;
      var uidx := usedIdx;
      used[uidx % qsize] := Used(idx, iolen);
      WrapDifference(lastAvail, uidx + 1);
      WrapMoved(lastAvail - uidx, held + rejected, -1);
      WrapSum(saveUsed + batch, 1);
      usedIdx := Nth(uidx, 1);
      held, batch := held - 1, batch + 1;
    }

    /** Decides whether to interrupt the guest.  With the event index, and a batch of fewer than 2^16
        chains, exactly if the index the guest asked for is among those just passed. */
    method EndChains(usedAll: bool, notifyOnEmpty: bool, eventIdx: bool, usedEvent: nat, noInterrupt: bool)
        returns (intr: bool)
      requires Valid() && usedEvent < U16
      modifies this
      ensures Valid() && saveUsed == usedIdx == old(usedIdx) && batch == 0
      ensures held == old(held) && rejected == old(rejected) && lastAvail == old(lastAvail)
      ensures usedAll && notifyOnEmpty ==> intr
      ensures !(usedAll && notifyOnEmpty) && eventIdx && old(batch) < U16 ==>
                (intr <==> Passed(usedEvent, old(saveUsed), old(batch)))
      ensures !(usedAll && notifyOnEmpty) && !eventIdx && old(batch) < U16 ==>
                (intr <==> old(batch) > 0 && !noInterrupt)
    {
      hide Wrap;
      var o, n := saveUsed, usedIdx;
      saveUsed := n;
      if usedAll && notifyOnEmpty {
        intr := true;
      } else if eventIdx {
        intr := Crossed(usedEvent, o, n);
        if batch < U16 {
          CrossedIff(usedEvent, o, batch);
        }
      } else {
        intr := n != o && !noInterrupt;
        if batch < U16 {
          WrapSum(o + batch, 0 - o);
          WrapSmall(batch);
          WrapSmall(0);
          WrapSmall(o);
        }
      }
      WrapSmall(n);
      batch := 0;
    }

    /** The 16-bit distance of the indices is the number of chains the device holds exactly if the
        rejected chains are a multiple of 2^16, in particular if there is none. */
    lemma ChainsHeld()
      requires Valid() && held < U16
      ensures Wrap(lastAvail - usedIdx) == held <==> Wrap(rejected) == 0
    {
      hide Wrap;
      WrapSmall(held);
      WrapSmall(0);
      if Wrap(rejected) == 0 {
        WrapMoved(rejected, 0, held);
      }
      if Wrap(held + rejected) == held {
        WrapMoved(held + rejected, held, 0 - held);
      }
    }
  }

  /** A guest that makes one chain available with a head beyond its ring: the chain is rejected, and
      the ring distance is 1 although the device holds none. */
  method RejectedHead(m: Memory) returns (n: int, distance: nat, ghost held: nat)
    requires |m.desc| == 1
    ensures n == -1 && distance == 1 && held == 0
  {
    var q := new Queue(1);
    var iov, flags := new Iov[0], new bv16[0];
    assert forall list :: !ChainList(m, 7, list);
    WrapSmall(1);
    var head;
    n, head := q.GetChain(m, 1, [7], iov, flags, 0);
    distance, held := Wrap(q.lastAvail - q.usedIdx), q.held;
  }

  // ---------------------------------------------------------------------------
  // The layout of a queue in guest memory
  // ---------------------------------------------------------------------------

  function RoundUp(x: nat): nat {
    (x + VRING_ALIGN - 1) / VRING_ALIGN * VRING_ALIGN
  }

  lemma RoundUpMeans(x: nat)
    ensures x <= RoundUp(x) < x + VRING_ALIGN && RoundUp(x) % VRING_ALIGN == 0
  {
  }

  lemma RoundUpShift(base: nat, x: nat)
    requires base % VRING_ALIGN == 0
    ensures RoundUp(base + x) == base + RoundUp(x)
  {
  }

  function VringSize(qsize: nat): nat {
    RoundUp(RoundUp(16 * qsize + 2 * (3 + qsize)) + 2 * 3 + 8 * qsize)
  }

  /** Descriptors, available ring (with the guest's event index behind it) and used ring (with the
      device's event index behind it) follow one another within the size of the queue. */
  method InitQueue(base: nat, qsize: nat) returns (desc: nat, avail: nat, used: nat)
    requires base % VRING_ALIGN == 0
    ensures desc == base && avail == desc + 16 * qsize
    ensures avail + 2 * (3 + qsize) <= used < avail + 2 * (3 + qsize) + VRING_ALIGN && used % VRING_ALIGN == 0
    ensures base + VringSize(qsize) - VRING_ALIGN < used + 2 * 3 + 8 * qsize <= base + VringSize(qsize)
  {
    hide RoundUp;
    desc := base;
    avail := desc + qsize * 16;
    used := RoundUp(avail + (2 + qsize + 1) * 2);
    RoundUpMeans(avail + (2 + qsize + 1) * 2);
    RoundUpShift(base, 16 * qsize + 2 * (3 + qsize));
    RoundUpMeans(RoundUp(16 * qsize + 2 * (3 + qsize)) + 2 * 3 + 8 * qsize);
  }
}
