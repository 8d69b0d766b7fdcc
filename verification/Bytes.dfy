/** Bytes, little-endian integers and borrowed slices. */
module Bytes {

  type Byte = x: int | 0 <= x < 256

  /** A borrowed byte slice: where it starts in the one input buffer, and what it reads there. */
  datatype Slice = Slice(off: nat, bytes: seq<Byte>)

  function Drop(s: seq<Byte>, n: nat): seq<Byte> {
    if n <= |s| then s[n..] else []
  }

  /** A slice without its first `n` bytes. */
  function After(sl: Slice, n: nat): Slice {
    Slice(sl.off + n, Drop(sl.bytes, n))
  }

  /** A part of what is left is a part of the whole. */
  lemma AfterPart(sl: Slice, n: nat, i: nat, j: nat)
    requires i <= j && n + j <= |sl.bytes|
    ensures After(sl, n).off == sl.off + n && |After(sl, n).bytes| == |sl.bytes| - n
    ensures After(sl, n).bytes[i..j] == sl.bytes[n + i..n + j]
  {
  }

  lemma AfterZero(sl: Slice)
    ensures After(sl, 0) == sl
  {
  }

  lemma AfterAfter(sl: Slice, m: nat, n: nat)
    ensures After(After(sl, m), n) == After(sl, m + n)
    ensures After(sl, m + n).off == sl.off + m + n
    ensures After(sl, m).off == sl.off + m && (m <= |sl.bytes| ==> |After(sl, m).bytes| == |sl.bytes| - m)
  {
    DropDrop(sl.bytes, m, n);
  }

  lemma DropDrop(s: seq<Byte>, m: nat, n: nat)
    ensures Drop(Drop(s, m), n) == Drop(s, m + n)
  {
  }

  lemma Split3(s: seq<Byte>, a: nat, b: nat, c: nat)
    requires a <= b <= c <= |s|
    ensures s[..c] == s[..a] + s[a..b] + s[b..c]
  {
  }

  /** The middle and the end of three parts, and the middle of a prefix that holds it. */
  lemma Parts3(x: seq<Byte>, y: seq<Byte>, z: seq<Byte>, k: nat)
    requires |x| + |y| <= k <= |x| + |y| + |z|
    ensures (x + y + z)[|x|..|x| + |y|] == y && (x + y + z)[|x| + |y|..] == z
    ensures (x + y + z)[..k][|x|..|x| + |y|] == y
  {
  }

  function Pow256(n: nat): nat {
    if n == 0 then 1 else 256 * Pow256(n - 1)
  }

  lemma Powers()
    ensures Pow256(0) == 1 && Pow256(1) == 0x100 && Pow256(2) == 0x1_0000
    ensures Pow256(4) == 0x1_0000_0000 && Pow256(8) == 0x1_0000_0000_0000_0000
  {
    assert Pow256(3) == 0x100_0000;
    assert Pow256(5) == 0x100 * Pow256(4);
    assert Pow256(6) == 0x100 * Pow256(5);
    assert Pow256(7) == 0x100 * Pow256(6);
  }

  /** The `n` low-order bytes of `v`, least significant first (`to_le_bytes`). */
  function LE(n: nat, v: nat): (s: seq<Byte>)
    ensures |s| == n
  {
    if n == 0 then [] else [v % 256] + LE(n - 1, v / 256)
  }

  /** The integer whose little-endian bytes are `s` (`from_le_bytes`). */
  function FromLE(s: seq<Byte>): nat {
    if s == [] then 0 else s[0] + 256 * FromLE(s[1..])
  }

  lemma {:induction false} FromLEOfLE(n: nat, v: nat)
    requires v < Pow256(n)
    ensures FromLE(LE(n, v)) == v
  {
    if n > 0 {
      FromLEOfLE(n - 1, v / 256);
      assert LE(n, v)[1..] == LE(n - 1, v / 256);
    }
  }

  lemma {:induction false} LEOfFromLE(s: seq<Byte>)
    ensures FromLE(s) < Pow256(|s|)
    ensures LE(|s|, FromLE(s)) == s
  {
    if s != [] {
      LEOfFromLE(s[1..]);
      assert FromLE(s) % 256 == s[0] && FromLE(s) / 256 == FromLE(s[1..]);
    }
  }

  type I32 = v: int | -0x8000_0000 <= v < 0x8000_0000

  /** Two's complement reading of 32 bits, and its inverse. */
  function AsI32(u: nat): I32 {
    var x := u % 0x1_0000_0000;
    if x < 0x8000_0000 then x else x - 0x1_0000_0000
  }

  function OfI32(v: I32): nat {
    if v >= 0 then v else v + 0x1_0000_0000
  }
}
