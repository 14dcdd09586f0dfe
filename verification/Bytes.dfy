/** Bytes, frames and big-endian integers. */
module Bytes {

  type byte = x: int | 0 <= x < 256

  /** A Go byte slice or string, by content. */
  type Bytes = seq<byte>

  /** A multipart message is a sequence of frames. */
  type Frames = seq<Bytes>

  const EMPTY: Bytes := []

  /** Go's largest `int` on 64-bit targets, and so the longest slice. */
  const MAX_INT64: nat := 0x7FFF_FFFF_FFFF_FFFF

  function Pow256(k: nat): (p: nat)
    ensures p > 0
  {
    if k == 0 then 1 else 256 * Pow256(k - 1)
  }

  /** The `k` low bytes of `n`, most significant first. */
  function BigEndian(n: nat, k: nat): (s: Bytes)
    ensures |s| == k
  {
    if k == 0 then [] else BigEndian(n / 256, k - 1) + [n % 256]
  }

  /** The unsigned integer a big-endian byte string stands for. */
  function Value(s: Bytes): (n: nat)
    ensures n < Pow256(|s|)
  {
    if s == [] then 0 else Value(s[..|s| - 1]) * 256 + s[|s| - 1]
  }

  lemma {:induction false} ValueBigEndian(n: nat, k: nat)
    requires n < Pow256(k)
    ensures Value(BigEndian(n, k)) == n
  {
    if k > 0 {
      assert n / 256 < Pow256(k - 1);
      ValueBigEndian(n / 256, k - 1);
      var s := BigEndian(n, k);
      assert s[..|s| - 1] == BigEndian(n / 256, k - 1);
    }
  }

  lemma {:induction false} BigEndianValue(s: Bytes)
    ensures BigEndian(Value(s), |s|) == s
  {
    if s != [] {
      var t := s[..|s| - 1];
      BigEndianValue(t);
      assert Value(s) / 256 == Value(t) && Value(s) % 256 == s[|s| - 1];
      assert s == t + [s[|s| - 1]];
    }
  }

  lemma Powers()
    ensures Pow256(1) == 0x100
    ensures Pow256(2) == 0x1_0000
    ensures Pow256(4) == 0x1_0000_0000
    ensures Pow256(8) == 0x1_0000_0000_0000_0000
  {
    assert Pow256(2) == 256 * Pow256(1);
    assert Pow256(3) == 256 * Pow256(2);
    assert Pow256(4) == 256 * Pow256(3);
    assert Pow256(5) == 256 * Pow256(4);
    assert Pow256(6) == 256 * Pow256(5);
    assert Pow256(7) == 256 * Pow256(6);
    assert Pow256(8) == 256 * Pow256(7);
  }

  /** Unsigned integers of two, four and eight bytes, the most significant first. */
  function Weigh2(a: int, b: int): int { a * 0x100 + b }

  function Weigh4(a: int, b: int, c: int, d: int): int {
    a * 0x100_0000 + b * 0x1_0000 + c * 0x100 + d
  }

  function Weigh8(a: int, b: int, c: int, d: int, e: int, f: int, g: int, h: int): int {
    a * 0x100_0000_0000_0000 + b * 0x1_0000_0000_0000 + c * 0x100_0000_0000 + d * 0x1_0000_0000
    + e * 0x100_0000 + f * 0x1_0000 + g * 0x100 + h
  }

  /** Four and eight bytes that stand for `n`. */
  predicate FourBytes(s: Bytes, n: nat) {
    |s| == 4 && n == Weigh4(s[0], s[1], s[2], s[3])
  }

  predicate EightBytes(s: Bytes, n: nat) {
    |s| == 8 && n == Weigh8(s[0], s[1], s[2], s[3], s[4], s[5], s[6], s[7])
  }

  lemma ValueOfOne(s: Bytes)
    requires |s| == 1
    ensures Value(s) == s[0]
  {
    assert Value(s[..0]) == 0;
  }

  lemma ValueOfTwo(s: Bytes)
    requires |s| == 2
    ensures Value(s) == Weigh2(s[0], s[1])
  {
    ValueOfOne(s[..1]);
  }

  lemma ValueOfFour(s: Bytes)
    requires |s| == 4
    ensures Value(s) == Weigh4(s[0], s[1], s[2], s[3])
  {
    ValueOfTwo(s[..2]);
    assert s[..3][..2] == s[..2];
    assert Value(s[..3]) == Value(s[..2]) * 256 + s[2];
  }

  lemma ValueOfEight(s: Bytes)
    requires |s| == 8
    ensures Value(s) == Weigh8(s[0], s[1], s[2], s[3], s[4], s[5], s[6], s[7])
  {
    ValueOfFour(s[..4]);
    assert s[..5][..4] == s[..4] && s[..6][..5] == s[..5] && s[..7][..6] == s[..6];
    assert Value(s[..5]) == Value(s[..4]) * 256 + s[4];
    assert Value(s[..6]) == Value(s[..5]) * 256 + s[5];
    assert Value(s[..7]) == Value(s[..6]) * 256 + s[6];
  }
}
