/** Splitting an AHCI transfer over the guest's scatter list (PRDT) into disk requests.

    A request carries at most 33 pieces of guest memory.  A longer transfer is continued from the
    completion callback, each round starting where the last one ended.  Guest memory is described by
    the sequence of byte addresses that a scatter list stands for, in transfer order. */
module AhciPrdt {
  import Modular
  import AhciCommand
  import opened Iovec

  const IOV_MAX := 33
  const DBC_SPAN := 0x40_0000
  const ADDRESSES := 0x1_0000_0000_0000_0000
  const U32 := 0x1_0000_0000
  const INT_MAX := 0x7fff_ffff

  /** A PRDT entry: guest address and byte count register. */
  datatype Prd = Prd(dba: nat, dbc: nat)

  /** One request to the disk and its answer: byte offset, bytes done before, pieces of guest memory,
      bytes done after, whether another round is needed, and whether the disk reports an error. */
  datatype Round = Round(offset: nat, done: nat, iov: seq<Iov>, after: nat, more: bool, err: bool)

  function Size(e: Prd): (n: nat)
    ensures 1 <= n <= DBC_SPAN
  {
    e.dbc % DBC_SPAN + 1
  }

  function Total(prdt: seq<Prd>): nat {
    if prdt == [] then 0 else Total(prdt[..|prdt| - 1]) + Size(prdt[|prdt| - 1])
  }

  function ToInt(x: nat): int
    requires x < U32
  {
    if x <= INT_MAX then x else x - U32
  }

  // ---------------------------------------------------------------------------
  // The guest bytes a list stands for
  // ---------------------------------------------------------------------------

  function Bytes(base: nat, len: nat): (s: seq<nat>)
    ensures |s| == len
  {
    seq(len, k requires 0 <= k => At(base, k))
  }

  function At(base: nat, k: nat): nat {
    (base + k) % ADDRESSES
  }

  /** The bytes of a piece follow one another from its address. */
  lemma BytesFollow(base: nat, len: nat, k: nat)
    requires k < len && base + len <= 0x1_0000_0000_0000_0000
    ensures |Bytes(base, len)| == len && Bytes(base, len)[k] == base + k
  {
  }

  ghost function PrdtBytes(prdt: seq<Prd>): (s: seq<nat>)
    ensures |s| == Total(prdt)
  {
    if prdt == [] then []
    else var last := prdt[|prdt| - 1]; PrdtBytes(prdt[..|prdt| - 1]) + Bytes(last.dba, Size(last))
  }

  ghost function IovBytes(iov: seq<Iov>): seq<nat> {
    if iov == [] then []
    else var last := iov[|iov| - 1]; IovBytes(iov[..|iov| - 1]) + Bytes(last.base, last.len)
  }

  /** The bytes of the rounds that the disk has answered without an error. */
  ghost function MovedBytes(rounds: seq<Round>): seq<nat> {
    if rounds == [] then []
    else var last := rounds[|rounds| - 1]; MovedBytes(rounds[..|rounds| - 1]) + if last.err then [] else IovBytes(last.iov)
  }

  /** Any 32 consecutive entries hold at least one sector. */
  ghost predicate Dense(prdt: seq<Prd>, sector: nat) {
    forall a: nat, b: nat | a <= b <= |prdt| && b - a == IOV_MAX - 1 :: Total(prdt[a..b]) >= sector
  }

  lemma BytesSlice(base: nat, len: nat, from: nat, n: nat)
    requires from + n <= len
    ensures Bytes(At(base, from), n) == Window(Bytes(base, len), from, n)
  {
    var part, whole := Bytes(At(base, from), n), Bytes(base, len);
    forall k | 0 <= k < n
      ensures part[k] == whole[from..from + n][k]
    {
      Modular.WrapSum(base + from, k, ADDRESSES);
    }
  }

  lemma {:induction false} PrdtPrefix(prdt: seq<Prd>, i: nat)
    requires i <= |prdt|
    ensures Total(prdt[..i]) <= Total(prdt)
    ensures PrdtBytes(prdt)[..Total(prdt[..i])] == PrdtBytes(prdt[..i])
    decreases |prdt|
  {
    if i == |prdt| {
      assert prdt[..i] == prdt;
    } else {
      var init := prdt[..|prdt| - 1];
      PrdtPrefix(init, i);
      assert init[..i] == prdt[..i];
      assert PrdtBytes(prdt)[..Total(prdt[..i])] == PrdtBytes(init)[..Total(prdt[..i])];
    }
  }

  /** `n` elements from position `a`. */
  ghost function Window(s: seq<nat>, a: nat, n: nat): (w: seq<nat>)
    requires a + n <= |s|
    ensures |w| == n
  {
    s[a..a + n]
  }

  lemma WindowExtend(s: seq<nat>, a: nat, m: nat, n: nat)
    requires a + m + n <= |s|
    ensures Window(s, a, m) + Window(s, a + m, n) == Window(s, a, m + n)
  {
  }

  lemma SliceOfPrefix(s: seq<nat>, a: nat, b: nat, c: nat)
    requires a <= b <= c <= |s|
    ensures s[a..b] == s[..c][a..b]
  {
  }

  lemma EntrySlice(all: seq<nat>, before: seq<nat>, entry: seq<nat>, from: nat, n: nat)
    requires |before| + |entry| <= |all| && all[..|before| + |entry|] == before + entry && from + n <= |entry|
    ensures Window(all, |before| + from, n) == Window(entry, from, n)
  {
    SliceOfPrefix(all, |before| + from, |before| + from + n, |before| + |entry|);
    SliceOfEnd(before, entry, from, n);
  }

  lemma SliceOfEnd(before: seq<nat>, entry: seq<nat>, from: nat, n: nat)
    requires from + n <= |entry|
    ensures (before + entry)[|before| + from..|before| + from + n] == entry[from..from + n]
  {
    var left, right := (before + entry)[|before| + from..|before| + from + n], entry[from..from + n];
    assert forall k | 0 <= k < n :: left[k] == right[k];
  }

  /** The bytes of entry `i` come after those of the entries before it. */
  lemma EntryInPlace(prdt: seq<Prd>, i: nat)
    requires i < |prdt|
    ensures Total(prdt[..i + 1]) == Total(prdt[..i]) + Size(prdt[i]) <= Total(prdt)
    ensures PrdtBytes(prdt)[..Total(prdt[..i + 1])] == PrdtBytes(prdt[..i]) + Bytes(prdt[i].dba, Size(prdt[i]))
  {
    hide Size, Bytes;
    assert prdt[..i + 1][..i] == prdt[..i];
    PrdtPrefix(prdt, i + 1);
  }

  lemma PrdtEntry(prdt: seq<Prd>, i: nat, from: nat, n: nat)
    requires i < |prdt| && from + n <= Size(prdt[i])
    ensures Total(prdt[..i + 1]) == Total(prdt[..i]) + Size(prdt[i]) <= Total(prdt)
    ensures Bytes(At(prdt[i].dba, from), n) == Window(PrdtBytes(prdt), Total(prdt[..i]) + from, n)
  {
    hide Size, Bytes, At, Total, PrdtBytes, Window;
    EntryInPlace(prdt, i);
    BytesSlice(prdt[i].dba, Size(prdt[i]), from, n);
    EntrySlice(PrdtBytes(prdt), PrdtBytes(prdt[..i]), Bytes(prdt[i].dba, Size(prdt[i])), from, n);
  }

  lemma TotalStep(prdt: seq<Prd>, a: nat, i: nat)
    requires a <= i < |prdt|
    ensures Total(prdt[a..i + 1]) == Total(prdt[a..i]) + Size(prdt[i])
  {
    hide Size;
    assert prdt[a..i + 1][..i - a] == prdt[a..i];
  }

  // ---------------------------------------------------------------------------
  // One round
  // ---------------------------------------------------------------------------

  predicate Multiple(x: nat, sector: nat) {
    sector > 0 && x % sector == 0
  }

  function Excess(x: nat, sector: nat): (r: nat)
    requires sector > 0
    ensures r <= x
  {
    x % sector
  }

  /** What the caller of a transfer has to provide for it to be carried out in full. */
  ghost predicate Suitable(prdt: seq<Prd>, len: nat, sector: nat) {
    && Multiple(len, sector)
    && len <= Total(prdt) && Dense(prdt, sector)
  }

  /** What a round from `done` to `after` does.  It sends the guest bytes in between; with more than
      2^31 - 1 bytes left it sends nothing and asks for another round; otherwise, on a suitable PRDT,
      it moves at least one sector and asks for more iff bytes are left. */
  ghost predicate RoundMeets(
    prdt: seq<Prd>, len: nat, sector: nat, done: nat, iov: seq<Iov>, after: nat, more: bool)
  {
    && |iov| <= IOV_MAX && done <= after <= len
    && (after == done ==> iov == [])
    && (after > done ==> after <= Total(prdt) && IovBytes(iov) == PrdtBytes(prdt)[done..after])
    && (len - done > INT_MAX ==> after == done && more == (prdt != []))
    && (len == done ==> !more)
    && (Suitable(prdt, len, sector) && Multiple(done, sector) && 0 < len - done <= INT_MAX ==>
          after > done && Multiple(after, sector) && more == (after < len))
  }

  /** The pieces `iov` hold the `todo` bytes after `done`; `i` entries have been looked at, `skip`
      bytes are still to be passed over and `left` to be gathered. */
  ghost predicate Gathered(prdt: seq<Prd>, len: nat, done: nat, iov: seq<Iov>, todo: nat, skip: nat, left: int, i: nat) {
    && done <= len < U32 && |iov| <= i <= |prdt| && (todo == 0 <==> iov == [])
    && left == ToInt(len - done) - todo
    && (len - done > INT_MAX ==> i == 0)
    && (len - done <= INT_MAX ==> left >= 0)
    && (left > 0 ==> Total(prdt[..i]) + skip == done + todo)
    && (skip > 0 ==> todo == 0)
    && (todo > 0 ==> done + todo <= Total(prdt) && IovBytes(iov) == Window(PrdtBytes(prdt), done, todo))
    && (left > 0 && todo > 0 ==> todo > Total(prdt[i - |iov| + 1..i]))
  }

  lemma GatherStart(prdt: seq<Prd>, len: nat, done: nat)
    requires done <= len < U32
    ensures Gathered(prdt, len, done, [], 0, done, ToInt(len - done), 0)
  {
    assert prdt[..0] == [];
  }

  lemma IovAppend(iov: seq<Iov>, x: Iov)
    ensures IovBytes(iov + [x]) == IovBytes(iov) + Bytes(x.base, x.len)
  {
    assert (iov + [x])[..|iov|] == iov;
  }

  lemma SliceExtend(s: seq<nat>, a: nat, b: nat, c: nat)
    requires a <= b <= c <= |s|
    ensures s[a..b] + s[b..c] == s[a..c]
  {
  }

  lemma TakeEntry(prdt: seq<Prd>, done: nat, iov: seq<Iov>, todo: nat, skip: nat, n: nat, i: nat)
    requires i < |prdt| && |iov| <= i && (todo == 0 <==> iov == []) && skip + n <= Size(prdt[i])
    requires Total(prdt[..i]) + skip == done + todo && done + todo <= Total(prdt)
    requires todo > 0 ==> IovBytes(iov) == Window(PrdtBytes(prdt), done, todo)
    ensures done + todo + n <= Total(prdt)
    ensures IovBytes(iov + [Iov(At(prdt[i].dba, skip), n)]) == Window(PrdtBytes(prdt), done, todo + n)
  {
    hide Size, Bytes, At, PrdtBytes, Total, IovBytes, Window;
    PrdtEntry(prdt, i, skip, n);
    IovAppend(iov, Iov(At(prdt[i].dba, skip), n));
    var all, at := PrdtBytes(prdt), done + todo;
    assert Bytes(At(prdt[i].dba, skip), n) == Window(all, at, n);
    if todo > 0 {
      WindowExtend(all, done, todo, n);
    } else {
      NoPieces();
    }
  }

  lemma GatherStep(prdt: seq<Prd>, len: nat, done: nat, iov: seq<Iov>, todo: nat, skip: nat, left: int, i: nat)
    requires i < |prdt| && left > 0 && Gathered(prdt, len, done, iov, todo, skip, left, i)
    ensures Size(prdt[i]) <= skip ==> Gathered(prdt, len, done, iov, todo, skip - Size(prdt[i]), left, i + 1)
    ensures Size(prdt[i]) > skip ==>
              var n := if Size(prdt[i]) - skip > left then left else Size(prdt[i]) - skip;
              Gathered(prdt, len, done, iov + [Iov(At(prdt[i].dba, skip), n)], todo + n, 0, left - n, i + 1)
  {
    hide Size, Bytes, At, PrdtBytes, IovBytes, Window;
    EntryInPlace(prdt, i);
    if Size(prdt[i]) > skip {
      var n := if Size(prdt[i]) - skip > left then left else Size(prdt[i]) - skip;
      TakeEntry(prdt, done, iov, todo, skip, n, i);
      if todo > 0 {
        TotalStep(prdt, i - |iov| + 1, i);
      } else {
        assert prdt[i + 1..i + 1] == [];
      }
    }
  }

  lemma NoPieces()
    ensures IovBytes([]) == []
  {
  }

  lemma GatherEnd(prdt: seq<Prd>, len: nat, done: nat, iov: seq<Iov>, todo: nat, skip: nat, left: int, i: nat)
    requires Gathered(prdt, len, done, iov, todo, skip, left, i)
    requires !(i < |prdt| && |iov| < IOV_MAX && left > 0)
    ensures todo <= len - done && i <= |prdt| && |iov| <= i
    ensures len - done > INT_MAX ==> todo == 0 && |iov| == 0 && i == 0
    ensures todo > 0 ==> done + todo <= Total(prdt) && IovBytes(iov) == Window(PrdtBytes(prdt), done, todo)
    ensures todo == 0 ==> IovBytes(iov) == [] && |iov| == 0
    ensures len - done <= INT_MAX && todo < len - done ==>
              && (len <= Total(prdt) ==> i < |prdt|)
              && (i < |prdt| ==> |iov| >= IOV_MAX && (|iov| == IOV_MAX ==> todo > Total(prdt[i - IOV_MAX + 1..i])))
  {
    hide Window;
    NoPieces();
    if i == |prdt| {
      assert prdt[..i] == prdt;
    }
  }

  /** Cutting `left` bytes off the last piece, or the whole piece. */
  lemma TrimStep(all: seq<nat>, iov: seq<Iov>, keep: nat, left: nat)
    requires 0 < left && keep + left <= |all| && IovBytes(iov) == all[..keep + left]
    ensures iov != []
    ensures
      var init, last := iov[..|iov| - 1], iov[|iov| - 1];
      if last.len > left then IovBytes(init + [last.(len := last.len - left)]) == all[..keep]
      else IovBytes(init) == all[..keep + left - last.len]
  {
    hide Bytes, At;
    NoPieces();
    var init, last := iov[..|iov| - 1], iov[|iov| - 1];
    assert IovBytes(iov) == IovBytes(init) + Bytes(last.base, last.len);
    hide IovBytes;
    if last.len > left {
      IovAppend(init, last.(len := last.len - left));
      BytesPrefix(last.base, last.len, last.len - left);
      CutBack(IovBytes(init), Bytes(last.base, last.len), all, keep, left);
    } else {
      CutBack(IovBytes(init), Bytes(last.base, last.len), all, keep + left - last.len, last.len);
      assert Bytes(last.base, last.len)[..0] == [];
    }
  }

  lemma BytesPrefix(base: nat, len: nat, n: nat)
    requires n <= len
    ensures Bytes(base, n) == Bytes(base, len)[..n]
  {
    hide At;
  }

  lemma CutBack(p: seq<nat>, q: seq<nat>, all: seq<nat>, keep: nat, n: nat)
    requires keep + n <= |all| && p + q == all[..keep + n] && n <= |q|
    ensures p + q[..|q| - n] == all[..keep]
  {
    assert p + q[..|q| - n] == (p + q)[..keep];
  }

  class IoRequest {
    const iov: array<Iov>
    var iovcnt: nat
    var resid: nat
    var len: nat
    var done: nat
    var more: bool

    constructor ()
      ensures fresh(iov) && iov.Length == IOV_MAX && done == 0
    {
      iov := new Iov[IOV_MAX](_ => Iov(0, 0));
      iovcnt, resid, len, done, more := 0, 0, 0, 0, false;
    }

    /** The part of the PRDT after the first `done` bytes, limited to the free pieces and `len`.
        Returns the bytes gathered, the pieces used and the entries looked at. */
    method Gather(prdt: seq<Prd>) returns (todo: nat, j: nat, i: nat)
      requires iov.Length == IOV_MAX && done <= len < U32
      modifies iov
      ensures j <= IOV_MAX && i <= |prdt| && todo <= len - done
      ensures len - done > INT_MAX ==> todo == 0 && j == 0 && i == 0
      ensures todo > 0 ==> done + todo <= Total(prdt) && IovBytes(iov[..j]) == Window(PrdtBytes(prdt), done, todo)
      ensures todo == 0 ==> IovBytes(iov[..j]) == [] && j == 0
      ensures len - done <= INT_MAX && todo < len - done ==>
                && (len <= Total(prdt) ==> i < |prdt|)
                && (i < |prdt| ==> j == IOV_MAX <= i && todo > Total(prdt[i - IOV_MAX + 1..i]))
    {
      hide Gathered, Size, At;
      var skip: nat, left: int := done, ToInt(len - done);
      todo, i, j := 0, 0, 0;
      GatherStart(prdt, len, done);
      assert iov[..0] == [];
      while i < |prdt| && j < IOV_MAX && left > 0
        invariant i <= |prdt| && j <= IOV_MAX
        invariant Gathered(prdt, len, done, iov[..j], todo, skip, left, i)
      {
        var dbcsz := Size(prdt[i]);
        GatherStep(prdt, len, done, iov[..j], todo, skip, left, i);
        if dbcsz <= skip {
          skip := skip - dbcsz;
        } else {
          var n := if dbcsz - skip > left then left else dbcsz - skip;
          ghost var before := iov[..j];
          iov[j] := Iov(At(prdt[i].dba, skip), n);
          assert iov[..j + 1] == before + [iov[j]];
          todo := todo + n;
          left := left - n;
          skip := 0;
          j := j + 1;
        }
        i := i + 1;
      }
      GatherEnd(prdt, len, done, iov[..j], todo, skip, left, i);
    }

    /** Shortens the pieces by `extra` bytes from the end. */
    method Trim(extra: nat, j0: nat) returns (j: nat)
      requires j0 <= iov.Length && extra <= |IovBytes(iov[..j0])|
      modifies iov
      ensures j <= j0
      ensures IovBytes(iov[..j]) == old(IovBytes(iov[..j0]))[..|old(IovBytes(iov[..j0]))| - extra]
    {
      hide IovBytes;
      ghost var all := IovBytes(iov[..j0]);
      var left: nat := extra;
      j := j0;
      while left > 0
        invariant j <= j0 && left <= extra && IovBytes(iov[..j]) == all[..|all| - extra + left]
        decreases j
      {
        TrimStep(all, iov[..j], |all| - extra, left);
        assert iov[..j][..j - 1] == iov[..j - 1];
        if iov[j - 1].len > left {
          ghost var before := iov[..j - 1];
          iov[j - 1] := iov[j - 1].(len := iov[j - 1].len - left);
          assert iov[..j] == before + [iov[j - 1]];
          return;
        }
        left := left - iov[j - 1].len;
        j := j - 1;
      }
    }

    /** One round.  `aborted` stands for the failing assertion that a limited round still moves a
        sector. */
    method BuildIov(prdt: seq<Prd>, sector: nat) returns (aborted: bool)
      requires iov.Length == IOV_MAX && sector > 0 && done <= len < U32
      modifies this, iov
      ensures len == old(len) && iovcnt <= IOV_MAX && old(done) <= done <= len && resid == done - old(done)
      ensures !aborted ==> RoundMeets(prdt, len, sector, old(done), iov[..iovcnt], done, more)
      ensures len - old(done) > INT_MAX || (Suitable(prdt, len, sector) && Multiple(old(done), sector)) ==> !aborted
    {
      hide Suitable, Multiple, Total, PrdtBytes, IovBytes;
      var todo, j, i := Gather(prdt);
      if Suitable(prdt, len, sector) && Multiple(done, sector) && 0 < len - done <= INT_MAX {
        NotEmpty(prdt, len, sector);
        RoundIsWhole(prdt, len, done, todo, sector, i, j);
      }
      var n;
      n, iovcnt := RoundToSector(todo, j, sector);
      aborted := j == IOV_MAX && n == 0;
      if n > 0 {
        SliceOfSlice(PrdtBytes(prdt), done, todo, n);
      }
      resid := n;
      done := done + n;
      more := done < len && i < |prdt|;
      assert iovcnt == 0 ==> iov[..iovcnt] == [];
    }

    /** Rounds the pieces down to whole sectors if their number is exhausted. */
    method RoundToSector(todo: nat, j: nat, sector: nat) returns (n: nat, j': nat)
      requires iov.Length == IOV_MAX && j <= IOV_MAX && sector > 0 && |IovBytes(iov[..j])| == todo
      modifies iov
      ensures n == (if j == IOV_MAX then todo - Excess(todo, sector) else todo) && j' <= j
      ensures IovBytes(iov[..j']) == old(IovBytes(iov[..j]))[..n]
    {
      n, j' := todo, j;
      if j == IOV_MAX {
        n := todo - Excess(todo, sector);
        j' := Trim(Excess(todo, sector), j);
      }
    }
  }

  lemma NotEmpty(prdt: seq<Prd>, len: nat, sector: nat)
    requires Suitable(prdt, len, sector) && len > 0
    ensures prdt != [] && len <= Total(prdt)
  {
  }

  lemma SliceOfSlice(s: seq<nat>, a: nat, n: nat, m: nat)
    requires a + n <= |s| && m <= n
    ensures s[a..a + n][..m] == s[a..a + m]
  {
  }

  /** A round that is cut short by the number of pieces still moves whole sectors, at least one. */
  lemma RoundIsWhole(prdt: seq<Prd>, len: nat, done: nat, todo: nat, sector: nat, i: nat, j: nat)
    requires Suitable(prdt, len, sector) && Multiple(done, sector) && done < len && todo <= len - done
    requires i <= |prdt|
    requires todo < len - done ==> i < |prdt| && j == IOV_MAX <= i && todo > Total(prdt[i - IOV_MAX + 1..i])
    ensures
      var n := if j == IOV_MAX then todo - Excess(todo, sector) else todo;
      n > 0 && Multiple(done + n, sector) && (n < len - done ==> i < |prdt|)
  {
    hide Multiple, Excess, Total;
    MultiplesSubtract(len, done, sector);
    RoundDown(todo, sector);
    if todo < len - done {
      MultiplesAdd(done, todo - Excess(todo, sector), sector);
    } else {
      MultiplesAdd(done, todo, sector);
    }
  }

  lemma MultipleOf(s: nat, k: int)
    requires s > 0 && s * k >= 0
    ensures Multiple(s * k, s)
  {
    Modular.MultipleHasNoRemainder(k, s);
  }

  lemma MultiplesSubtract(x: nat, y: nat, s: nat)
    requires y <= x && Multiple(x, s) && Multiple(y, s)
    ensures Multiple(x - y, s)
  {
    assert x - y == s * (x / s - y / s);
    MultipleOf(s, x / s - y / s);
  }

  lemma MultiplesAdd(x: nat, y: nat, s: nat)
    requires Multiple(x, s) && Multiple(y, s)
    ensures Multiple(x + y, s)
  {
    assert x + y == s * (x / s + y / s);
    MultipleOf(s, x / s + y / s);
  }

  lemma RoundDown(x: nat, s: nat)
    requires s > 0
    ensures Multiple(x - Excess(x, s), s) && (x >= s ==> x - Excess(x, s) > 0)
    ensures Multiple(x, s) ==> Excess(x, s) == 0
  {
    assert x - x % s == s * (x / s);
    MultipleOf(s, x / s);
  }

  // ---------------------------------------------------------------------------
  // The whole transfer
  // ---------------------------------------------------------------------------

  /** The rounds of a command of `len` bytes at disk offset `lba`: the callback starts the next one where
      the last one ended, while there is no error and more is needed. */
  ghost predicate IsRun(prdt: seq<Prd>, len: nat, lba: nat, sector: nat, rounds: seq<Round>)
    decreases |rounds|
  {
    rounds != [] ==>
      var init, r := rounds[..|rounds| - 1], rounds[|rounds| - 1];
      && IsRun(prdt, len, lba, sector, init)
      && RoundMeets(prdt, len, sector, r.done, r.iov, r.after, r.more) && r.offset == lba + r.done
      && (if init == [] then r.done == 0 else Follows(init[|init| - 1], r))
  }

  predicate Follows(before: Round, r: Round) {
    r.done == before.after && before.more && !before.err
  }

  /** The command is reported to the guest. */
  predicate Ended(rounds: seq<Round>) {
    rounds != [] && (rounds[|rounds| - 1].err || !rounds[|rounds| - 1].more)
  }

  predicate NoError(rounds: seq<Round>) {
    forall r <- rounds :: !r.err
  }

  lemma RunPrefix(prdt: seq<Prd>, len: nat, lba: nat, sector: nat, rounds: seq<Round>, r: Round)
    ensures IsRun(prdt, len, lba, sector, rounds + [r]) <==>
            && IsRun(prdt, len, lba, sector, rounds)
            && RoundMeets(prdt, len, sector, r.done, r.iov, r.after, r.more) && r.offset == lba + r.done
            && (if rounds == [] then r.done == 0 else Follows(rounds[|rounds| - 1], r))
  {
    hide RoundMeets, Follows;
    assert (rounds + [r])[..|rounds|] == rounds;
  }

  lemma MovedGrows(rounds: seq<Round>, r: Round)
    ensures MovedBytes(rounds + [r]) == MovedBytes(rounds) + if r.err then [] else IovBytes(r.iov)
  {
    assert (rounds + [r])[..|rounds|] == rounds;
  }

  /** How far a run of a command that fits has come: the bytes up to `after` are moved, in whole
      sectors, at least one byte for each round. */
  ghost predicate Fits(prdt: seq<Prd>, len: nat, lba: nat, sector: nat, rounds: seq<Round>) {
    rounds != [] ==>
      var last := rounds[|rounds| - 1];
      && |rounds| <= last.after <= len <= Total(prdt) && Multiple(last.after, sector) && last.more == (last.after < len)
      && MovedBytes(rounds) == PrdtBytes(prdt)[..last.after] && last.done < last.after
      && last.offset == lba + |MovedBytes(rounds[..|rounds| - 1])|
  }

  lemma {:induction false} FittingRun(prdt: seq<Prd>, len: nat, lba: nat, sector: nat, rounds: seq<Round>)
    requires 0 < len <= INT_MAX && Suitable(prdt, len, sector)
    requires IsRun(prdt, len, lba, sector, rounds) && NoError(rounds)
    ensures Fits(prdt, len, lba, sector, rounds)
    decreases |rounds|
  {
    if rounds != [] {
      var init, r := rounds[..|rounds| - 1], rounds[|rounds| - 1];
      assert rounds == init + [r] && r in rounds;
      RunPrefix(prdt, len, lba, sector, init, r);
      FittingRun(prdt, len, lba, sector, init);
      hide IsRun, Suitable;
      FitsOn(prdt, len, lba, sector, init, r);
    }
  }

  lemma FitsOn(prdt: seq<Prd>, len: nat, lba: nat, sector: nat, rounds: seq<Round>, r: Round)
    requires 0 < len <= INT_MAX && Suitable(prdt, len, sector) && Fits(prdt, len, lba, sector, rounds) && !r.err
    requires RoundMeets(prdt, len, sector, r.done, r.iov, r.after, r.more) && r.offset == lba + r.done
    requires if rounds == [] then r.done == 0 else Follows(rounds[|rounds| - 1], r)
    ensures Fits(prdt, len, lba, sector, rounds + [r])
  {
    ZeroIsMultiple(prdt, len, sector);
    hide Multiple, IovBytes, MovedBytes, Suitable, PrdtBytes;
    MovedGrows(rounds, r);
    RoundGives(prdt, len, sector, r);
    hide RoundMeets;
    var all := PrdtBytes(prdt);
    assert MovedBytes(rounds) == all[..r.done] by {
      if rounds == [] {
        NothingMoved(all);
      }
    }
    SliceExtend(all, 0, r.done, r.after);
    assert (rounds + [r])[..|rounds|] == rounds;
  }

  lemma ZeroIsMultiple(prdt: seq<Prd>, len: nat, sector: nat)
    requires Suitable(prdt, len, sector)
    ensures Multiple(0, sector) && len <= Total(prdt)
  {
  }

  lemma NothingMoved(all: seq<nat>)
    ensures MovedBytes([]) == all[..0]
  {
  }

  /** What a round of a command that fits does, from a sector boundary. */
  lemma RoundGives(prdt: seq<Prd>, len: nat, sector: nat, r: Round)
    requires len <= INT_MAX && Suitable(prdt, len, sector) && Multiple(r.done, sector) && r.done < len
    requires RoundMeets(prdt, len, sector, r.done, r.iov, r.after, r.more)
    ensures r.done < r.after <= len && Multiple(r.after, sector) && r.more == (r.after < len)
    ensures r.after <= Total(prdt) && IovBytes(r.iov) == PrdtBytes(prdt)[r.done..r.after]
  {
    hide Suitable, Multiple, IovBytes, PrdtBytes;
  }

  // ---------------------------------------------------------------------------
  // Commands that do not fit
  // ---------------------------------------------------------------------------

  /** The byte count of a request of `want` bytes: the 32-bit product of block count and size wraps. */
  function Wrapped(want: nat): (len: nat)
    ensures len < U32
  {
    want % U32
  }

  /** Every round of a command of 2^31 bytes or more moves nothing, and only an error ends it. */
  lemma {:induction false} OversizedRun(prdt: seq<Prd>, len: nat, lba: nat, sector: nat, rounds: seq<Round>)
    requires prdt != [] && len > INT_MAX && IsRun(prdt, len, lba, sector, rounds)
    ensures MovedBytes(rounds) == [] && (Ended(rounds) <==> !NoError(rounds))
    ensures rounds != [] ==> rounds[|rounds| - 1].after == 0 && rounds[|rounds| - 1].iov == []
    decreases |rounds|
  {
    if rounds != [] {
      var init, r := rounds[..|rounds| - 1], rounds[|rounds| - 1];
      assert rounds == init + [r];
      RunPrefix(prdt, len, lba, sector, init, r);
      OversizedRun(prdt, len, lba, sector, init);
      hide IsRun, Suitable;
      MovedGrows(init, r);
      assert r.iov == [] && IovBytes(r.iov) == [];
      assert forall x <- rounds :: x in init || x == r;
      assert init != [] ==> init[|init| - 1] in init;
      assert r in rounds && forall x <- init :: x in rounds;
      if init != [] {
        assert !Ended(init);
      }
    }
  }

  predicate PowerOfTwo(n: nat) {
    n == 1 || (n > 1 && n % 2 == 0 && PowerOfTwo(n / 2))
  }

  /** Sector sizes that a disk can be opened with. */
  predicate SectorSize(sector: nat) {
    512 <= sector < U32 && PowerOfTwo(sector)
  }

  lemma {:induction false} PowersDivide(a: nat, b: nat)
    requires PowerOfTwo(a) && PowerOfTwo(b) && a <= b
    ensures Multiple(b, a)
  {
    if a > 1 {
      PowersDivide(a / 2, b / 2);
      var k := (b / 2) / (a / 2);
      assert b / 2 == (a / 2) * k;
      assert b == a * k by { Doubled(a / 2, b / 2, k); }
      MultipleOf(a, k);
    } else {
      assert b == 1 * b;
      MultipleOf(1, b);
    }
  }

  lemma Doubled(x: nat, y: nat, k: nat)
    requires y == x * k
    ensures 2 * y == (2 * x) * k
  {
  }

  lemma WrapIsWhole(sector: nat)
    requires SectorSize(sector)
    ensures Multiple(U32, sector)
  {
    WrapIsPower();
    hide PowerOfTwo, Multiple;
    PowersDivide(sector, U32);
  }

  lemma WrapIsPower()
    ensures PowerOfTwo(U32)
  {
    assert PowerOfTwo(1);
    hide PowerOfTwo;
    FourTimes(0x1);
    FourTimes(0x4);
    FourTimes(0x10);
    FourTimes(0x40);
    FourTimes(0x100);
    FourTimes(0x400);
    FourTimes(0x1000);
    FourTimes(0x4000);
    FourTimes(0x1_0000);
    FourTimes(0x4_0000);
    FourTimes(0x10_0000);
    FourTimes(0x40_0000);
    FourTimes(0x100_0000);
    FourTimes(0x400_0000);
    FourTimes(0x1000_0000);
    FourTimes(0x4000_0000);
  }

  lemma FourTimes(n: nat)
    requires PowerOfTwo(n)
    ensures PowerOfTwo(4 * n)
  {
    hide PowerOfTwo;
    Twice(n);
    Twice(2 * n);
  }

  lemma Twice(n: nat)
    requires PowerOfTwo(n)
    ensures PowerOfTwo(2 * n)
  {
    assert n > 0;
    HalfOfTwice(n);
    hide PowerOfTwo;
    UnfoldPower(2 * n);
  }

  lemma HalfOfTwice(n: nat)
    ensures (2 * n) / 2 == n && (2 * n) % 2 == 0
  {
  }

  lemma UnfoldPower(n: nat)
    ensures PowerOfTwo(n) <==> n == 1 || (n > 1 && n % 2 == 0 && PowerOfTwo(n / 2))
  {
  }

  lemma SuitableWrapped(prdt: seq<Prd>, want: nat, sector: nat)
    requires Suitable(prdt, want, sector) && SectorSize(sector)
    ensures Suitable(prdt, Wrapped(want), sector) && Wrapped(want) <= want
    ensures Wrapped(want) == want <==> want < U32
  {
    hide PowerOfTwo;
    WrapIsWhole(sector);
    var k := want / U32;
    assert want == U32 * k + Wrapped(want);
    MultipleTimes(U32, k, sector);
    MultiplesSubtract(want, U32 * k, sector);
  }

  lemma MultipleTimes(x: nat, k: nat, s: nat)
    requires Multiple(x, s)
    ensures Multiple(x * k, s)
  {
    assert x == s * (x / s);
    assert x * k == s * (x / s * k);
    MultipleOf(s, x / s * k);
  }

  /** An empty command, or one whose length has wrapped to zero, is one empty request. */
  lemma {:induction false} EmptyRun(prdt: seq<Prd>, lba: nat, sector: nat, rounds: seq<Round>)
    requires IsRun(prdt, 0, lba, sector, rounds)
    ensures |rounds| <= 1 && MovedBytes(rounds) == [] && forall r <- rounds :: !r.more
    decreases |rounds|
  {
    if rounds != [] {
      var init, r := rounds[..|rounds| - 1], rounds[|rounds| - 1];
      assert rounds == init + [r];
      EmptyRun(prdt, lba, sector, init);
      hide Suitable;
      MovedGrows(init, r);
      assert r.iov == [] && IovBytes([]) == [];
    }
  }

  /** A run without errors that has ended, or had as many rounds as there are bytes, has moved the
      guest's whole request of `want` bytes exactly if that is less than 2^31 bytes. */
  lemma WholeRequestIff(prdt: seq<Prd>, want: nat, lba: nat, sector: nat, rounds: seq<Round>)
    requires want > 0 && Suitable(prdt, want, sector) && SectorSize(sector)
    requires IsRun(prdt, Wrapped(want), lba, sector, rounds) && NoError(rounds)
    requires Ended(rounds) || |rounds| >= want
    ensures Ended(rounds) && MovedBytes(rounds) == PrdtBytes(prdt)[..want] <==> want <= INT_MAX
  {
    var len := Wrapped(want);
    SuitableWrapped(prdt, want, sector);
    NotEmpty(prdt, want, sector);
    hide Suitable, Multiple, IsRun, RoundMeets, Wrapped;
    assert |PrdtBytes(prdt)[..want]| == want;
    if len == 0 {
      EmptyRun(prdt, lba, sector, rounds);
    } else if len > INT_MAX {
      OversizedRun(prdt, len, lba, sector, rounds);
    } else {
      FittingRun(prdt, len, lba, sector, rounds);
    }
  }

  // ---------------------------------------------------------------------------
  // The whole transfer, in place
  // ---------------------------------------------------------------------------

  /** The first request of a command and the rounds its completion callbacks add, given the answers of
      the disk.  If all of them succeed, a command that fits moves exactly its `len` bytes. */
  method Transfer(prdt: seq<Prd>, len: nat, lba: nat, sector: nat, errs: seq<bool>) returns (rounds: seq<Round>)
    requires len < U32 && Suitable(prdt, len, sector)
    ensures IsRun(prdt, len, lba, sector, rounds)
    ensures |rounds| <= |errs| && forall k | 0 <= k < |rounds| :: rounds[k].err == errs[k]
    ensures Ended(rounds) || |rounds| == |errs|
    ensures 0 < len <= INT_MAX && len <= |errs| && (forall e <- errs :: !e) ==>
              Ended(rounds) && len <= Total(prdt) && MovedBytes(rounds) == PrdtBytes(prdt)[..len]
  {
    assert Multiple(0, sector) && sector > 0;
    hide Suitable, Multiple, RoundMeets, Answered, MovedBytes;
    var aior := new IoRequest();
    aior.len := len;
    rounds := [];
    NotAnswered(prdt, len, lba, sector, errs);
    while |rounds| < |errs| && !Ended(rounds)
      invariant fresh(aior) && fresh(aior.iov) && aior.iov.Length == IOV_MAX
      invariant aior.len == len && aior.done <= len && Multiple(aior.done, sector)
      invariant Answered(prdt, len, lba, sector, errs, rounds, aior.done)
      decreases |errs| - |rounds|
    {
      var done := aior.done;
      var aborted := aior.BuildIov(prdt, sector);
      var iov := aior.iov[..aior.iovcnt];
      StaysMultiple(prdt, len, sector, done, iov, aior.done, aior.more);
      AnsweredOn(prdt, len, lba, sector, errs, rounds, done, iov, aior.done, aior.more);
      rounds := rounds + [Round(lba + done, done, iov, aior.done, aior.more, errs[|rounds|])];
    }
    AllAnswered(prdt, len, lba, sector, errs, rounds, aior.done);
  }

  /** The rounds of a run that has come to `done` have had the first of the answers. */
  ghost predicate Answered(
    prdt: seq<Prd>, len: nat, lba: nat, sector: nat, errs: seq<bool>, rounds: seq<Round>, done: nat)
  {
    && IsRun(prdt, len, lba, sector, rounds)
    && |rounds| <= |errs| && (forall k | 0 <= k < |rounds| :: rounds[k].err == errs[k])
    && done == if rounds == [] then 0 else rounds[|rounds| - 1].after
  }

  lemma NotAnswered(prdt: seq<Prd>, len: nat, lba: nat, sector: nat, errs: seq<bool>)
    ensures Answered(prdt, len, lba, sector, errs, [], 0)
  {
  }

  lemma AnsweredOn(prdt: seq<Prd>, len: nat, lba: nat, sector: nat, errs: seq<bool>, rounds: seq<Round>, done: nat,
                   iov: seq<Iov>, after: nat, more: bool)
    requires Answered(prdt, len, lba, sector, errs, rounds, done) && |rounds| < |errs| && !Ended(rounds)
    requires RoundMeets(prdt, len, sector, done, iov, after, more)
    ensures var r := Round(lba + done, done, iov, after, more, errs[|rounds|]);
            Answered(prdt, len, lba, sector, errs, rounds + [r], after)
  {
    hide RoundMeets, IsRun;
    RunPrefix(prdt, len, lba, sector, rounds, Round(lba + done, done, iov, after, more, errs[|rounds|]));
  }

  lemma AllAnswered(prdt: seq<Prd>, len: nat, lba: nat, sector: nat, errs: seq<bool>, rounds: seq<Round>, done: nat)
    requires Suitable(prdt, len, sector) && Answered(prdt, len, lba, sector, errs, rounds, done)
    requires Ended(rounds) || |rounds| >= |errs|
    ensures IsRun(prdt, len, lba, sector, rounds)
    ensures |rounds| <= |errs| && forall k | 0 <= k < |rounds| :: rounds[k].err == errs[k]
    ensures 0 < len <= INT_MAX && len <= |errs| && (forall e <- errs :: !e) ==>
              Ended(rounds) && len <= Total(prdt) && MovedBytes(rounds) == PrdtBytes(prdt)[..len]
  {
    if 0 < len <= INT_MAX && len <= |errs| && (forall e <- errs :: !e) {
      forall r | r in rounds
        ensures !r.err
      {
        var k :| 0 <= k < |rounds| && rounds[k] == r;
        assert errs[k] in errs;
      }
      hide IsRun, Suitable, MovedBytes, PrdtBytes;
      FittingRun(prdt, len, lba, sector, rounds);
    }
  }

  lemma StaysMultiple(prdt: seq<Prd>, len: nat, sector: nat, done: nat, iov: seq<Iov>, after: nat, more: bool)
    requires Suitable(prdt, len, sector) && Multiple(done, sector)
    requires RoundMeets(prdt, len, sector, done, iov, after, more)
    ensures Multiple(after, sector)
  {
    hide Suitable, Multiple;
  }

  // ---------------------------------------------------------------------------
  // Which commands fit
  // ---------------------------------------------------------------------------

  const ATAPI_BLOCK := 2048

  /** Reads and writes of a disk with sectors of up to 16 KiB always fit, and do not wrap. */
  lemma AtaFits(t: AhciCommand.Table, sector: nat)
    requires sector <= 0x4000
    ensures var want := AhciCommand.AtaBlocks(t) * sector; Wrapped(want) == want <= INT_MAX
  {
    var blocks := AhciCommand.AtaBlocks(t);
    hide AhciCommand.AtaBlocks, Wrapped;
    SmallProduct(blocks, sector);
    SmallStays(blocks * sector);
  }

  lemma SmallStays(want: nat)
    requires want <= 0x4000_0000
    ensures Wrapped(want) == want <= INT_MAX
  {
  }

  lemma {:induction false} SmallProduct(blocks: nat, sector: nat)
    requires sector <= 0x4000
    ensures blocks * sector <= 0x4000 * blocks
  {
    if blocks > 0 {
      SmallProduct(blocks - 1, sector);
      assert blocks * sector == (blocks - 1) * sector + sector;
    }
  }

  /** A packet read that ends without an error, or has as many rounds as bytes, has moved all its
      blocks exactly if they are fewer than 2^20. */
  lemma AtapiReadIff(t: AhciCommand.Table, prdt: seq<Prd>, lba: nat, sector: nat, rounds: seq<Round>)
    requires
      var blocks := AhciCommand.AtapiBlocks(t);
      && blocks > 0 && Suitable(prdt, blocks * ATAPI_BLOCK, sector) && SectorSize(sector)
      && IsRun(prdt, Wrapped(blocks * ATAPI_BLOCK), lba, sector, rounds) && NoError(rounds)
      && (Ended(rounds) || |rounds| >= blocks * ATAPI_BLOCK)
    ensures
      var blocks := AhciCommand.AtapiBlocks(t);
      && blocks * ATAPI_BLOCK <= |PrdtBytes(prdt)|
      && (Ended(rounds) && MovedBytes(rounds) == PrdtBytes(prdt)[..blocks * ATAPI_BLOCK] <==> blocks < 0x10_0000)
  {
    var blocks := AhciCommand.AtapiBlocks(t);
    WholeRequestIff(prdt, blocks * ATAPI_BLOCK, lba, sector, rounds);
  }

  /** READ(12) with the given bytes as its block count. */
  predicate IsRead12(t: AhciCommand.Table, count: seq<nat>)
    requires |count| == 4
  {
    && AhciCommand.Acmd(t, 0) == 0xA8 && AhciCommand.Acmd(t, 6) == count[0] && AhciCommand.Acmd(t, 7) == count[1]
    && AhciCommand.Acmd(t, 8) == count[2] && AhciCommand.Acmd(t, 9) == count[3]
  }

  lemma Read12Blocks(t: AhciCommand.Table, count: seq<nat>)
    requires |count| == 4 && IsRead12(t, count)
    ensures AhciCommand.PacketCommand(t).AtapiRead?
    ensures AhciCommand.AtapiBlocks(t) == 0x100_0000 * count[0] + 0x1_0000 * count[1] + 0x100 * count[2] + count[3]
  {
  }

  lemma Read12Lengths(t: AhciCommand.Table)
    ensures IsRead12(t, [0x00, 0x10, 0x00, 0x00]) ==> Wrapped(AhciCommand.AtapiBlocks(t) * ATAPI_BLOCK) == 0x8000_0000
    ensures IsRead12(t, [0x00, 0x20, 0x00, 0x01]) ==>
              AhciCommand.AtapiBlocks(t) == 0x20_0001 && Wrapped(AhciCommand.AtapiBlocks(t) * ATAPI_BLOCK) == ATAPI_BLOCK
  {
    hide IsRead12, AhciCommand.AtapiBlocks;
    if IsRead12(t, [0x00, 0x10, 0x00, 0x00]) {
      Read12Blocks(t, [0x00, 0x10, 0x00, 0x00]);
    }
    if IsRead12(t, [0x00, 0x20, 0x00, 0x01]) {
      Read12Blocks(t, [0x00, 0x20, 0x00, 0x01]);
    }
  }

  /** 2^20 blocks: nothing is ever moved, and the command ends only by an error of the disk. */
  lemma Read12Stalls(t: AhciCommand.Table, prdt: seq<Prd>, lba: nat, sector: nat, rounds: seq<Round>)
    requires IsRead12(t, [0x00, 0x10, 0x00, 0x00]) && prdt != []
    requires IsRun(prdt, Wrapped(AhciCommand.AtapiBlocks(t) * ATAPI_BLOCK), lba, sector, rounds)
    ensures MovedBytes(rounds) == [] && (Ended(rounds) <==> !NoError(rounds))
  {
    Read12Lengths(t);
    hide Wrapped, IsRead12, IsRun, MovedBytes;
    OversizedRun(prdt, 0x8000_0000, lba, sector, rounds);
  }

  /** 2^21 + 1 blocks: the length wraps, one block is moved and success is reported. */
  lemma Read12Wraps(t: AhciCommand.Table, prdt: seq<Prd>, lba: nat, sector: nat, rounds: seq<Round>)
    requires IsRead12(t, [0x00, 0x20, 0x00, 0x01]) && Suitable(prdt, ATAPI_BLOCK, sector)
    requires IsRun(prdt, Wrapped(AhciCommand.AtapiBlocks(t) * ATAPI_BLOCK), lba, sector, rounds)
    requires Ended(rounds) && NoError(rounds)
    ensures AhciCommand.AtapiBlocks(t) == 0x20_0001
    ensures |PrdtBytes(prdt)| >= ATAPI_BLOCK && MovedBytes(rounds) == PrdtBytes(prdt)[..ATAPI_BLOCK]
  {
    Read12Lengths(t);
    hide Wrapped, IsRead12, IsRun, MovedBytes, Suitable;
    FittingRun(prdt, ATAPI_BLOCK, lba, sector, rounds);
  }
}
