/** Bytes and little-endian numbers. */
module Bytes {

  type Byte = x: int | 0 <= x < 256

  /** `n` bytes of `x`, least significant first. */
  function LittleEndian(x: nat, n: nat): (s: seq<Byte>)
    ensures |s| == n
  {
    if n == 0 then [] else [x % 256] + LittleEndian(x / 256, n - 1)
  }

  /** The number that bytes stand for, least significant first. */
  function Value(s: seq<Byte>): nat {
    if s == [] then 0 else s[0] + 256 * Value(s[1..])
  }

  /** `base` is 256 to the power `k`. */
  ghost predicate Base(base: nat, k: nat) {
    if k == 0 then base == 1 else base % 256 == 0 && Base(base / 256, k - 1)
  }

  lemma Bases()
    ensures Base(0x100, 1) && Base(0x1_0000, 2) && Base(0x1_0000_0000, 4) && Base(0x1_0000_0000_0000_0000, 8)
  {
    assert Base(1, 0);
    assert Base(0x100, 1);
    assert Base(0x1_0000, 2);
    assert Base(0x100_0000, 3);
    assert Base(0x1_0000_0000, 4);
    assert Base(0x100_0000_0000, 5);
    assert Base(0x1_0000_0000_0000, 6);
    assert Base(0x100_0000_0000_0000, 7);
  }

  lemma {:induction false} ValueOfBytes(x: nat, k: nat, base: nat)
    requires Base(base, k) && x < base
    ensures Value(LittleEndian(x, k)) == x
  {
    if k > 0 {
      SmallerQuotient(x, base, base / 256);
      ValueOfBytes(x / 256, k - 1, base / 256);
    }
  }

  /** The bytes of two numbers, one after the other, are the bytes of one. */
  lemma {:induction false} LittleEndianSplit(low: nat, high: nat, k: nat, base: nat, n: nat)
    requires Base(base, k) && low < base
    ensures LittleEndian(low, k) + LittleEndian(high, n) == LittleEndian(low + base * high, k + n)
  {
    if k > 0 {
      var b := base / 256;
      assert base * high == 256 * (b * high) by { Regroup(base, b, high); }
      AddMultiple(low, b * high);
      SmallerQuotient(low, base, b);
      LittleEndianSplit(low / 256, high, k - 1, b, n);
    } else {
      assert low + base * high == high;
    }
  }

  lemma Regroup(base: nat, b: nat, high: nat)
    requires base == 256 * b
    ensures base * high == 256 * (b * high)
  {
  }

  lemma AddMultiple(x: nat, h: nat)
    ensures (x + 256 * h) % 256 == x % 256 && (x + 256 * h) / 256 == x / 256 + h
  {
  }

  lemma SmallerQuotient(low: nat, base: nat, b: nat)
    requires base == 256 * b && low < base
    ensures low / 256 < b
  {
  }
}
