/** The incremental MD5 of the backend identifiers.

    A message arrives in pieces and is processed through a 64-byte buffer and a bit count of two
    32-bit words.  The digest is specified by section 3 of RFC 1321: pad the whole message, then fold
    the block transformation over it.  The block transformation itself is a parameter. */
module Md5 {

  import Modular
  import opened Bytes

  const BLOCK: nat := 64
  const U32: nat := 0x1_0000_0000
  const U64: nat := 0x1_0000_0000_0000_0000

  datatype Words = Words(a: nat, b: nat, c: nat, d: nat)

  type Transform = (Words, seq<Byte>) -> Words

  const INITIAL := Words(0x67452301, 0xefcdab89, 0x98badcfe, 0x10325476)

  // ---------------------------------------------------------------------------
  // One-shot definition
  // ---------------------------------------------------------------------------

  /** The transformation folded over the whole blocks of `data`. */
  function Fold(f: Transform, s: Words, data: seq<Byte>): Words
    decreases |data|
  {
    if |data| < BLOCK then s else Fold(f, f(s, data[..BLOCK]), data[BLOCK..])
  }

  function Zeros(n: nat): (z: seq<Byte>)
    ensures |z| == n
  {
    seq(n, _ => 0)
  }

  /** How many padding bytes bring a message of `n` bytes to 56 modulo 64; at least one. */
  function PadLength(n: nat): (p: nat)
    ensures 1 <= p <= BLOCK && (n + p) % BLOCK == 56
  {
    if n % BLOCK < 56 then 56 - n % BLOCK else 120 - n % BLOCK
  }

  function Padding(p: nat): (s: seq<Byte>)
    requires p > 0
    ensures |s| == p
  {
    [0x80] + Zeros(p - 1)
  }

  function BitCount(n: nat): nat {
    8 * n % U64
  }

  function Padded(msg: seq<Byte>): (p: seq<Byte>)
    ensures |p| == |msg| + PadLength(|msg|) + 8
  {
    msg + Padding(PadLength(|msg|)) + LittleEndian(BitCount(|msg|), 8)
  }

  lemma PaddedWhole(msg: seq<Byte>)
    ensures |Padded(msg)| % BLOCK == 0
  {
    EightMore(|msg| + PadLength(|msg|));
  }

  lemma EightMore(n: nat)
    requires n % BLOCK == 56
    ensures (n + 8) % BLOCK == 0
  {
  }

  /** The padded message: the message, one byte 0x80, fewer than 64 zero bytes and its length in bits as a 64-bit number, least
      significant byte first; together a multiple of 64 bytes. */
  lemma PaddedIs(msg: seq<Byte>)
    ensures
      var p, n := Padded(msg), |msg|;
      && |p| % 64 == 0 && n + 9 <= |p| < n + 9 + 64
      && p[..n] == msg && p[n] == 0x80 && (forall k | n < k < |p| - 8 :: p[k] == 0)
      && Value(p[|p| - 8..]) == 8 * n % 0x1_0000_0000_0000_0000
  {
    var p, n := Padded(msg), |msg|;
    PaddedWhole(msg);
    var bits := LittleEndian(BitCount(n), 8);
    assert p[|p| - 8..] == bits;
    Bases();
    ValueOfBytes(BitCount(n), 8, 0x1_0000_0000_0000_0000);
  }

  /** The state begins with the registers of section 3.3 of RFC 1321, given there as bytes, least significant first. */
  lemma InitialIs()
    ensures INITIAL.a == Value([0x01, 0x23, 0x45, 0x67]) && INITIAL.b == Value([0x89, 0xab, 0xcd, 0xef])
    ensures INITIAL.c == Value([0xfe, 0xdc, 0xba, 0x98]) && INITIAL.d == Value([0x76, 0x54, 0x32, 0x10])
  {
    FourBytes(0x01, 0x23, 0x45, 0x67);
    FourBytes(0x89, 0xab, 0xcd, 0xef);
    FourBytes(0xfe, 0xdc, 0xba, 0x98);
    FourBytes(0x76, 0x54, 0x32, 0x10);
    hide Value;
  }

  lemma FourBytes(a: Byte, b: Byte, c: Byte, d: Byte)
    ensures Value([a, b, c, d]) == a as int + 0x100 * (b as int) + 0x1_0000 * (c as int) + 0x100_0000 * (d as int)
  {
    assert [a, b, c, d][1..] == [b, c, d] && [b, c, d][1..] == [c, d] && [c, d][1..] == [d] && [d][1..] == [];
    assert Value([d]) == d as int + 256 * Value([]);
    assert Value([c, d]) == c as int + 256 * Value([d]);
    assert Value([b, c, d]) == b as int + 256 * Value([c, d]);
  }

  /** The digest is the four words in order, each least significant byte first. */
  lemma DigestIs(w: Words)
    ensures
      var d := Encode(w);
      d[..4] == LittleEndian(w.a, 4) && d[4..8] == LittleEndian(w.b, 4) && d[8..12] == LittleEndian(w.c, 4) && d[12..] == LittleEndian(w.d, 4)
  {
    hide LittleEndian;
  }

  function Encode(w: Words): (digest: seq<Byte>)
    ensures |digest| == 16
  {
    LittleEndian(w.a, 4) + LittleEndian(w.b, 4) + LittleEndian(w.c, 4) + LittleEndian(w.d, 4)
  }

  function Digest(f: Transform, msg: seq<Byte>): seq<Byte> {
    Encode(Fold(f, INITIAL, Padded(msg)))
  }

  lemma {:induction false} FoldAppend(f: Transform, s: Words, x: seq<Byte>, y: seq<Byte>)
    requires |x| % BLOCK == 0
    ensures Fold(f, s, x + y) == Fold(f, Fold(f, s, x), y)
    decreases |x|
  {
    if x == [] {
      assert x + y == y;
    } else {
      assert (x + y)[..BLOCK] == x[..BLOCK] && (x + y)[BLOCK..] == x[BLOCK..] + y;
      FoldAppend(f, f(s, x[..BLOCK]), x[BLOCK..], y);
    }
  }

  lemma FoldBlock(f: Transform, s: Words, x: seq<Byte>, block: seq<Byte>)
    requires |x| % BLOCK == 0 && |block| == BLOCK
    ensures Fold(f, s, x + block) == f(Fold(f, s, x), block)
  {
    FoldAppend(f, s, x, block);
    assert block[..BLOCK] == block;
  }

  // ---------------------------------------------------------------------------
  // The bit count
  // ---------------------------------------------------------------------------

  /** The two words hold eight times `n`, modulo 2^64. */
  predicate Counts(count0: nat, count1: nat, n: nat) {
    count0 < U32 && count1 < U32 && count0 + U32 * count1 == BitCount(n)
  }

  lemma CountLow(count0: nat, count1: nat, n: nat)
    requires Counts(count0, count1, n)
    ensures count0 / 8 % BLOCK == n % BLOCK
  {
    var q := 8 * n / U64;
    assert 8 * n == q * U64 + count0 + U32 * count1;
    var k := q * (U64 / 512) + (U32 / 512) * count1;
    assert 8 * n == count0 + 512 * k;
    Eighth(count0, n, k);
  }

  lemma Eighth(x: nat, n: nat, k: int)
    requires 8 * n == x + 512 * k
    ensures x / 8 % BLOCK == n % BLOCK
  {
    assert x / 8 == n - 64 * k;
  }

  /** Adding with a carry that is noticed by the wrapped sum. */
  function Added(count0: nat, count1: nat, len: nat): (nat, nat) {
    var low := 8 * len % U32;
    var sum := (count0 + low) % U32;
    var carry := if sum < low then 1 else 0;
    (sum, (count1 + carry + len / 0x2000_0000) % U32)
  }

  lemma AddedCounts(count0: nat, count1: nat, n: nat, len: nat)
    requires Counts(count0, count1, n) && len < U32
    ensures Counts(Added(count0, count1, len).0, Added(count0, count1, len).1, n + len)
  {
    var low, high := 8 * len % U32, len / 0x2000_0000;
    assert 8 * len == low + U32 * high;
    var sum := (count0 + low) % U32;
    var carry := if sum < low then 1 else 0;
    assert count0 + low == sum + U32 * carry;
    var top := count1 + carry + high;
    var q, p := 8 * n / U64, top / U32;
    assert 8 * n == q * U64 + count0 + U32 * count1;
    assert top == p * U32 + top % U32;
    var r := sum + U32 * (top % U32);
    assert 8 * (n + len) == (q + p) * U64 + r;
    assert 0 <= r < U64;
    Modular.RemainderIs(q + p, r, U64);
  }

  // ---------------------------------------------------------------------------
  // The incremental form
  // ---------------------------------------------------------------------------

  /** The bytes of a message of `n` bytes that fill whole blocks. */
  function Whole(n: nat): (w: nat)
    ensures w <= n < w + BLOCK && w % BLOCK == 0 && w == n - n % BLOCK
  {
    n - n % BLOCK
  }

  lemma WholeIs(n: nat, w: nat)
    requires w % BLOCK == 0 && w <= n < w + BLOCK
    ensures Whole(n) == w
  {
  }

  lemma NextBlock(n: nat)
    requires n % BLOCK == 0
    ensures (n + BLOCK) % BLOCK == 0
  {
  }

  /** `state` and `buf` are what the message `m` leaves behind. */
  ghost predicate Absorbed(f: Transform, state: Words, buf: seq<Byte>, m: seq<Byte>) {
    var w := Whole(|m|);
    |buf| == BLOCK && state == Fold(f, INITIAL, m[..w]) && buf[..|m| - w] == m[w..]
  }

  /** The buffered bytes and the first ones of `input` make a block. */
  lemma FirstBlock(f: Transform, state: Words, buf: seq<Byte>, m: seq<Byte>, input: seq<Byte>)
    requires Absorbed(f, state, buf, m) && |input| >= BLOCK - |m| % BLOCK
    ensures
      var index, part := |m| % BLOCK, BLOCK - |m| % BLOCK;
      var block := buf[..index] + input[..part];
      && |block| == BLOCK && (|m| + part) % BLOCK == 0
      && f(state, block) == Fold(f, INITIAL, (m + input)[..|m| + part])
  {
    var w, part := Whole(|m|), BLOCK - |m| % BLOCK;
    var block := buf[..|m| % BLOCK] + input[..part];
    FoldBlock(f, INITIAL, m[..w], block);
    assert (m + input)[..|m| + part] == m[..w] + block;
    NextBlock(w);
  }

  lemma LaterBlock(f: Transform, all: seq<Byte>, n: nat)
    requires n % BLOCK == 0 && n + BLOCK <= |all|
    ensures Fold(f, INITIAL, all[..n + BLOCK]) == f(Fold(f, INITIAL, all[..n]), all[n..n + BLOCK])
  {
    assert all[..n + BLOCK] == all[..n] + all[n..n + BLOCK];
    FoldBlock(f, INITIAL, all[..n], all[n..n + BLOCK]);
  }

  /** `w` bytes are folded and the rest, less than a block, is in the buffer. */
  lemma NowAbsorbed(f: Transform, state: Words, buf: seq<Byte>, all: seq<Byte>, w: nat)
    requires w % BLOCK == 0 && w <= |all| < w + BLOCK && |buf| == BLOCK
    requires state == Fold(f, INITIAL, all[..w]) && buf[..|all| - w] == all[w..]
    ensures Absorbed(f, state, buf, all)
  {
    WholeIs(|all|, w);
  }

  /** Bytes that do not fill the block join the buffered ones. */
  lemma Kept(f: Transform, state: Words, buf: seq<Byte>, m: seq<Byte>, input: seq<Byte>)
    requires Absorbed(f, state, buf, m)
    ensures
      var w, index := Whole(|m|), |m| % BLOCK;
      && |buf| == BLOCK && w + index == |m| && w % BLOCK == 0
      && state == Fold(f, INITIAL, (m + input)[..w])
      && buf[..index] + input == (m + input)[w..] && input[0..] == input
  {
    var w := Whole(|m|);
    assert (m + input)[..w] == m[..w];
    assert (m + input)[w..] == m[w..] + input;
  }

  lemma DropBoth(m: seq<Byte>, input: seq<Byte>, i: nat)
    requires i <= |input|
    ensures (m + input)[|m| + i..] == [] + input[i..]
  {
  }

  lemma Front(a: seq<Byte>, b: seq<Byte>, c: seq<Byte>)
    ensures (a + b + c)[..|a| + |b|] == a + b
  {
  }

  // ---------------------------------------------------------------------------
  // The block loop and its 32-bit index
  // ---------------------------------------------------------------------------

  /** The index of the block loop after `k` turns, if it goes on so long. */
  function BlockIndex(index: nat, k: nat): nat {
    (BLOCK - index + BLOCK * k) % U32
  }

  /** The loop condition fails at some turn. */
  ghost predicate LoopEnds(index: nat, len: nat) {
    exists k: nat :: LastOfBlock(BlockIndex(index, k)) >= len
  }

  lemma SmallIndex(i: nat, index: nat, len: nat)
    requires index < BLOCK && i <= len < U32 && (index + i) % BLOCK == 0 && index + len < U32
    ensures i + 63 < U32
  {
    var q := (index + i) / BLOCK;
    assert index + i == BLOCK * q;
    assert q < U32 / BLOCK;
  }

  lemma LargeIndex(i: nat, index: nat, len: nat)
    requires 0 < index < BLOCK && i < U32 && (index + i) % BLOCK == 0 && len < U32 <= index + len
    ensures LastOfBlock(i) < len
  {
    var q := (index + i) / BLOCK;
    assert index + i == BLOCK * q;
    if i + 63 < U32 {
      assert q < U32 / BLOCK;
    } else {
      assert (i + 63) % U32 == i + 63 - U32;
    }
  }

  lemma BlockIndexAligned(index: nat, k: nat)
    requires index < BLOCK
    ensures BlockIndex(index, k) < U32 && (index + BlockIndex(index, k)) % BLOCK == 0
  {
    var x := BLOCK - index + BLOCK * k;
    var q := x / U32;
    assert x == U32 * q + BlockIndex(index, k);
    assert index + BlockIndex(index, k) == BLOCK * (1 + k - (U32 / BLOCK) * q);
    Modular.MultipleHasNoRemainder(1 + k - (U32 / BLOCK) * q, BLOCK);
  }

  /** With `index` bytes buffered, the loop over `len` bytes ends exactly if both together are fewer than
      2^32. */
  lemma LoopEndsIff(index: nat, len: nat)
    requires index < BLOCK && BLOCK - index <= len < U32
    ensures LoopEnds(index, len) <==> index + len < U32
  {
    if index + len < U32 {
      var k := (len - (BLOCK - index)) / BLOCK;
      var i := BLOCK - index + BLOCK * k;
      assert i <= len < i + BLOCK;
      assert index + i == BLOCK * (1 + k);
      Modular.MultipleHasNoRemainder(1 + k, BLOCK);
      SmallIndex(i, index, len);
      assert BlockIndex(index, k) == i;
    } else {
      forall k: nat
        ensures LastOfBlock(BlockIndex(index, k)) < len
      {
        BlockIndexAligned(index, k);
        LargeIndex(BlockIndex(index, k), index, len);
      }
    }
  }

  /** One byte buffered and a piece of 2^32 - 1 bytes: the loop never ends. */
  lemma LongPieceHangs()
    ensures !LoopEnds(1, U32 - 1)
  {
    LoopEndsIff(1, U32 - 1);
  }

  /** The index of the last byte of the block at `i`, as a 32-bit number. */
  function LastOfBlock(i: nat): nat { (i + 63) % U32 }

  /** The message and the first `i` bytes of `input` are folded. */
  ghost predicate Folded(f: Transform, state: Words, m: seq<Byte>, input: seq<Byte>, i: nat) {
    i <= |input| && (|m| + i) % BLOCK == 0 && state == Fold(f, INITIAL, (m + input)[..|m| + i])
  }

  lemma FoldedNoWrap(f: Transform, state: Words, m: seq<Byte>, index: nat, input: seq<Byte>, i: nat)
    requires Folded(f, state, m, input, i) && index == |m| % BLOCK && index + |input| < U32
    ensures LastOfBlock(i) == i + 63
  {
    Modular.WrapSum(|m|, i, BLOCK);
    SmallIndex(i, index, |input|);
  }

  lemma FoldedOn(f: Transform, state: Words, m: seq<Byte>, input: seq<Byte>, i: nat)
    requires Folded(f, state, m, input, i) && i + 63 < |input|
    ensures Folded(f, f(state, input[i..i + BLOCK]), m, input, i + BLOCK)
  {
    var all := m + input;
    LaterBlock(f, all, |m| + i);
    assert all[|m| + i..|m| + i + BLOCK] == input[i..i + BLOCK];
    NextBlock(|m| + i);
  }

  lemma FoldedMeans(f: Transform, state: Words, m: seq<Byte>, input: seq<Byte>, i: nat)
    requires Folded(f, state, m, input, i)
    ensures (|m| + i) % BLOCK == 0 && i <= |input| && state == Fold(f, INITIAL, (m + input)[..|m| + i])
  {
  }

  lemma SmallPiece(n: nat, k: nat)
    requires k <= BLOCK
    ensures n % BLOCK + k < U32
  {
  }

  class Context {
    const transform: Transform
    const buffer: array<Byte>
    var state: Words
    var count0: nat
    var count1: nat

    constructor (f: Transform)
      ensures transform == f && fresh(buffer) && Consumed([])
    {
      transform := f;
      count0, count1 := 0, 0;
      state := INITIAL;
      buffer := new Byte[BLOCK](_ => 0);
    }

    /** The context has consumed the message `m`. */
    ghost predicate Consumed(m: seq<Byte>)
      reads this, buffer
    {
      Counts(count0, count1, |m|) && Absorbed(transform, state, buffer[..], m)
    }

    method Copy(at: nat, data: seq<Byte>)
      requires at + |data| <= buffer.Length
      modifies buffer
      ensures buffer[..] == old(buffer[..at]) + data + old(buffer[at + |data|..])
    {
      for k := 0 to |data|
        invariant buffer[..at] == old(buffer[..at]) && buffer[at + |data|..] == old(buffer[at + |data|..])
        invariant buffer[at..at + k] == data[..k]
      {
        buffer[at + k] := data[k];
      }
    }

    method AddBits(len: nat)
      requires count0 < U32 && count1 < U32 && len < U32
      modifies this
      ensures (count0, count1) == Added(old(count0), old(count1), len) && state == old(state)
    {
      var low := 8 * len % U32;
      count0 := (count0 + low) % U32;
      var carry := 0;
      if count0 < low {
        carry := 1;
        count1 := (count1 + 1) % U32;
      }
      count1 := (count1 + len / 0x2000_0000) % U32;
      Modular.WrapSum(old(count1) + carry, len / 0x2000_0000, U32);
    }

    /** Completes the buffered block and folds the whole blocks of `input`; returns how much of it
        has been used. */
    method FoldInput(input: seq<Byte>, index: nat, ghost m: seq<Byte>) returns (i: nat)
      requires Absorbed(transform, state, buffer[..], m) && index == |m| % BLOCK
      requires BLOCK - index <= |input| && index + |input| < U32
      modifies this, buffer
      ensures i <= |input| < i + BLOCK && (|m| + i) % BLOCK == 0
      ensures state == Fold(transform, INITIAL, (m + input)[..|m| + i])
      ensures count0 == old(count0) && count1 == old(count1) && buffer.Length == BLOCK
    {
      FirstBlock(transform, state, buffer[..], m, input);
      assert buffer.Length == BLOCK;
      hide Absorbed, Fold;
      var part := BLOCK - index;
      ghost var before := buffer[..];
      Copy(index, input[..part]);
      assert buffer[..] == before[..index] + input[..part];
      state := transform(state, buffer[..]);
      i := FoldBlocks(input, part, index, m);
    }

    /** The block loop over the rest of `input`. */
    method FoldBlocks(input: seq<Byte>, part: nat, ghost index: nat, ghost m: seq<Byte>) returns (i: nat)
      requires index == |m| % BLOCK && part <= |input| && index + |input| < U32
      requires Folded(transform, state, m, input, part)
      modifies `state
      ensures i <= |input| < i + BLOCK && (|m| + i) % BLOCK == 0
      ensures state == Fold(transform, INITIAL, (m + input)[..|m| + i])
    {
      hide Folded;
      i := part;
      FoldedNoWrap(transform, state, m, index, input, i);
      while LastOfBlock(i) < |input|
        invariant i <= |input| && Folded(transform, state, m, input, i) && LastOfBlock(i) == i + 63
        decreases |input| - i
      {
        FoldedOn(transform, state, m, input, i);
        state := transform(state, input[i..i + BLOCK]);
        i := i + BLOCK;
        FoldedNoWrap(transform, state, m, index, input, i);
      }
      FoldedMeans(transform, state, m, input, i);
    }

    method Absorb(input: seq<Byte>, index0: nat, ghost m: seq<Byte>)
      requires Absorbed(transform, state, buffer[..], m) && index0 == |m| % BLOCK && index0 + |input| < U32
      modifies this, buffer
      ensures Absorbed(transform, state, buffer[..], m + input)
      ensures count0 == old(count0) && count1 == old(count1)
    {
      Kept(transform, state, buffer[..], m, input);
      assert buffer.Length == BLOCK;
      hide Absorbed, Whole, Fold;
      if index0 + |input| >= BLOCK {
        var i := FoldInput(input, index0, m);
        DropBoth(m, input, i);
        Stash(0, input[i..], m + input, |m| + i);
      } else {
        Stash(index0, input, m + input, Whole(|m|));
      }
    }

    /** Buffers the rest of a message of which the first `w` bytes are folded. */
    method Stash(index: nat, rest: seq<Byte>, ghost all: seq<Byte>, ghost w: nat)
      requires buffer.Length == BLOCK && w <= |all| && w % BLOCK == 0 && index + |rest| == |all| - w < BLOCK
      requires state == Fold(transform, INITIAL, all[..w]) && buffer[..index] + rest == all[w..]
      modifies buffer
      ensures Absorbed(transform, state, buffer[..], all)
    {
      hide Absorbed, Fold;
      ghost var kept, free := buffer[..index], buffer[index + |rest|..];
      Copy(index, rest);
      Front(kept, rest, free);
      NowAbsorbed(transform, state, buffer[..], all, w);
    }

    method Update(input: seq<Byte>, ghost m: seq<Byte>)
      requires Consumed(m) && |m| % BLOCK + |input| < U32
      modifies this, buffer
      ensures Consumed(m + input)
    {
      CountLow(count0, count1, |m|);
      AddedCounts(count0, count1, |m|, |input|);
      assert count0 < U32 && count1 < U32;
      hide Absorbed, Added, Counts;
      var index := count0 / 8 % BLOCK;
      AddBits(|input|);
      Absorb(input, index, m);
    }

    method Pad(ghost m: seq<Byte>)
      requires Consumed(m)
      modifies this, buffer
      ensures Consumed(Padded(m))
    {
      CountLow(count0, count1, |m|);
      var bits := LittleEndian(count0, 4) + LittleEndian(count1, 4);
      BitsAre(count0, count1, |m|);
      var index := count0 / 8 % BLOCK;
      var padLen := if index < 56 then 56 - index else 120 - index;
      assert padLen == PadLength(|m|);
      hide Consumed, LittleEndian, Padding, PadLength, BitCount;
      SmallPiece(|m|, padLen);
      SmallPiece(|m + Padding(padLen)|, 8);
      Update(Padding(padLen), m);
      Update(bits, m + Padding(padLen));
    }

    method Final(ghost m: seq<Byte>) returns (digest: seq<Byte>)
      requires Consumed(m)
      modifies this, buffer
      ensures digest == Digest(transform, m)
    {
      Pad(m);
      PaddedWhole(m);
      WholeIs(|Padded(m)|, |Padded(m)|);
      assert Padded(m)[..|Padded(m)|] == Padded(m);
      digest := Encode(state);
      state, count0, count1 := Words(0, 0, 0, 0), 0, 0;
    }
  }

  /** Eight bytes of the two words, one after the other, are eight bytes of the count. */
  lemma BitsAre(count0: nat, count1: nat, n: nat)
    requires Counts(count0, count1, n)
    ensures LittleEndian(count0, 4) + LittleEndian(count1, 4) == LittleEndian(BitCount(n), 8)
  {
    LittleEndianSplit(count0, count1, 4, U32, 4);
  }

  function Concat(pieces: seq<seq<Byte>>): seq<Byte> {
    if pieces == [] then [] else Concat(pieces[..|pieces| - 1]) + pieces[|pieces| - 1]
  }

  /** However a message is cut into pieces, the digest is that of the whole, as long as no piece makes
      the block index wrap; pieces of at most 2^32 - 64 bytes never do. */
  method DigestOfPieces(f: Transform, pieces: seq<seq<Byte>>) returns (digest: seq<Byte>)
    requires forall k | 0 <= k < |pieces| :: |Concat(pieces[..k])| % BLOCK + |pieces[k]| < U32
    ensures digest == Digest(f, Concat(pieces))
  {
    hide Digest;
    var c := new Context(f);
    for k := 0 to |pieces|
      invariant fresh(c) && fresh(c.buffer) && c.transform == f
      invariant c.Consumed(Concat(pieces[..k]))
    {
      assert pieces[..k + 1][..k] == pieces[..k];
      c.Update(pieces[k], Concat(pieces[..k]));
    }
    assert pieces[..|pieces|] == pieces;
    digest := c.Final(Concat(pieces));
  }
}
