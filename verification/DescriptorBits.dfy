/** Which parts of its descriptors a chain depends on: bit 0 of the flags continues it, bit 2 marks an
    indirect table, and no other bit matters. */
module DescriptorBits {
  import opened VirtQueue

  predicate Continues(d: Desc) {
    d.flags & 0x0001 != 0
  }

  predicate Table(d: Desc) {
    d.flags & 0x0004 != 0
  }

  lemma Bits(d: Desc)
    ensures HasNext(d) <==> Continues(d)
    ensures Indirect(d) <==> Table(d)
  {
  }

  /** A descriptor that points to no table is a chain of its own iff bit 0 is clear; otherwise the chain goes on
      at its `next` field. */
  lemma DirectChain(m: Memory, i: nat, rest: seq<Desc>)
    requires i < |m.desc| && m.desc[i].flags & 0x0004 == 0
    ensures ChainList(m, i, [m.desc[i]] + rest) <==>
            if m.desc[i].flags & 0x0001 == 0 then rest == [] else ChainList(m, m.desc[i].next, rest)
  {
    var d := m.desc[i];
    Bits(d);
    hide HasNext, Indirect;
    var list := [d] + rest;
    DirectSegment(m, d);
    if ChainList(m, i, list) {
      FirstSegment(m, i, [d], list);
      assert list[1..] == rest;
    }
    if if HasNext(d) then ChainList(m, d.next, rest) else rest == [] {
      AddSegment(m, i, [d], rest);
    }
  }

  /** A descriptor that points to a table has a chain only if tables are allowed and the length is a positive
      multiple of 16; the chain begins with the list of the table. */
  lemma IndirectChain(m: Memory, i: nat, list: seq<Desc>)
    requires i < |m.desc| && m.desc[i].flags & 0x0004 != 0 && ChainList(m, i, list)
    ensures m.indirectAllowed && m.desc[i].len % 16 == 0 && m.desc[i].len >= 16
    ensures exists k: nat :: k <= |list| && TableList(TableOf(m, m.desc[i]), 0, list[..k]) &&
              if m.desc[i].flags & 0x0001 == 0 then k == |list| else ChainList(m, m.desc[i].next, list[k..])
  {
    Bits(m.desc[i]);
    hide HasNext, Indirect;
    var k: nat :| SplitAt(m, i, list, k);
  }

  /** Within a table, bit 2 must be clear and bit 0 leads on. */
  lemma TableEntry(t: seq<Desc>, i: nat, rest: seq<Desc>)
    requires i < |t|
    ensures TableList(t, i, [t[i]] + rest) <==>
            t[i].flags & 0x0004 == 0 && if t[i].flags & 0x0001 == 0 then rest == [] else TableList(t, t[i].next, rest)
  {
    Bits(t[i]);
    hide HasNext, Indirect;
    var list := [t[i]] + rest;
    assert list[1..] == rest;
  }

  // ---------------------------------------------------------------------------
  // The other bits
  // ---------------------------------------------------------------------------

  /** Equal but for flags other than bits 0 and 2. */
  predicate Alike(d: Desc, d': Desc) {
    d'.addr == d.addr && d'.len == d.len && d'.next == d.next && d'.flags & 0x0005 == d.flags & 0x0005
  }

  ghost predicate AllAlike(s: seq<Desc>, s': seq<Desc>) {
    |s| == |s'| && forall k | 0 <= k < |s| :: Alike(s[k], s'[k])
  }

  /** The memories agree but for flags other than bits 0 and 2, in the ring and in the tables. */
  ghost predicate SameChains(m: Memory, m': Memory) {
    && AllAlike(m.desc, m'.desc) && m'.indirectAllowed == m.indirectAllowed
    && forall d, d' | Alike(d, d') :: AllAlike(TableOf(m, d), TableOf(m', d'))
  }

  lemma AlikeBits(d: Desc, d': Desc)
    requires Alike(d, d')
    ensures HasNext(d) == HasNext(d') && Indirect(d) == Indirect(d')
  {
    SameBits(d.flags, d'.flags);
  }

  lemma SameBits(f: bv16, f': bv16)
    requires f & 0x0005 == f' & 0x0005
    ensures f & 1 == f' & 1 && f & 4 == f' & 4
  {
    assert f & 1 == (f & 5) & 1 && f' & 1 == (f' & 5) & 1;
    assert f & 4 == (f & 5) & 4 && f' & 4 == (f' & 5) & 4;
  }

  lemma {:induction false} AlikeTable(t: seq<Desc>, t': seq<Desc>, i: nat, list: seq<Desc>) returns (list': seq<Desc>)
    requires AllAlike(t, t') && TableList(t, i, list)
    ensures TableList(t', i, list') && AllAlike(list, list')
    decreases |list|
  {
    AlikeBits(t[i], t'[i]);
    hide HasNext, Indirect, Alike;
    list' := [t'[i]];
    if HasNext(t[i]) {
      var rest := AlikeTable(t, t', t[i].next, list[1..]);
      list' := [t'[i]] + rest;
      assert list'[1..] == rest;
    }
  }

  lemma AlikeSegment(m: Memory, m': Memory, d: Desc, d': Desc, seg: seq<Desc>) returns (seg': seq<Desc>)
    requires SameChains(m, m') && Alike(d, d') && Segment(m, d, seg)
    ensures Segment(m', d', seg') && AllAlike(seg, seg')
  {
    AlikeBits(d, d');
    if Indirect(d) {
      seg' := AlikeTable(TableOf(m, d), TableOf(m', d'), 0, seg);
    } else {
      seg' := [d'];
    }
  }

  /** A chain of one memory has a counterpart in the other, with the same addresses and lengths. */
  lemma {:induction false} AlikeChain(m: Memory, m': Memory, i: nat, list: seq<Desc>) returns (list': seq<Desc>)
    requires SameChains(m, m') && ChainList(m, i, list)
    ensures ChainList(m', i, list') && AllAlike(list, list')
    decreases |list|
  {
    var k: nat :| SplitAt(m, i, list, k);
    var d, d' := m.desc[i], m'.desc[i];
    assert Alike(d, d');
    AlikeBits(d, d');
    var seg' := AlikeSegment(m, m', d, d', list[..k]);
    var rest': seq<Desc> := [];
    if HasNext(d) {
      rest' := AlikeChain(m, m', d.next, list[k..]);
    }
    hide ChainList, Segment, SameChains, HasNext, Indirect;
    AddSegment(m', i, seg', rest');
    list' := seg' + rest';
    assert list == list[..k] + list[k..];
  }

  lemma AlikeBack(m: Memory, m': Memory)
    requires SameChains(m, m')
    ensures SameChains(m', m)
  {
    forall d, d' | Alike(d, d')
      ensures AllAlike(TableOf(m', d), TableOf(m, d'))
    {
      assert Alike(d', d);
    }
  }

  /** Bits of the flags other than 0 and 2, such as the one that makes a buffer writable, change neither whether
      a chain begins at `i`, nor its length, addresses and sizes. */
  lemma OtherBitsDoNotMatter(m: Memory, m': Memory, i: nat)
    requires SameChains(m, m')
    ensures (exists list :: ChainList(m, i, list)) <==> exists list :: ChainList(m', i, list)
    ensures forall list, list' | ChainList(m, i, list) && ChainList(m', i, list') :: AllAlike(list, list')
  {
    hide ChainList, SameChains, AllAlike;
    AlikeBack(m, m');
    if list :| ChainList(m', i, list) {
      var other := AlikeChain(m', m, i, list);
    }
    forall list | ChainList(m, i, list)
      ensures exists list' :: ChainList(m', i, list')
      ensures forall list' | ChainList(m', i, list') :: AllAlike(list, list')
    {
      var other := AlikeChain(m, m', i, list);
      forall list' | ChainList(m', i, list')
        ensures AllAlike(list, list')
      {
        ChainUnique(m', i, other, list');
      }
    }
  }
}
