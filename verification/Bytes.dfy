/** Memory as a sequence of bytes, with little-endian 32-bit words at any byte offset. */
module Bytes {
  const WORD_LIMIT: int := 0x1_0000_0000

  type byte = x: int | 0 <= x < 256
  type word = x: int | 0 <= x < 0x1_0000_0000

  function Get32(m: seq<byte>, o: nat): word
    requires o + 4 <= |m|
  {
    m[o] as int + m[o + 1] as int * 0x100 + m[o + 2] as int * 0x1_0000 + m[o + 3] as int * 0x100_0000
  }

  function Put32(m: seq<byte>, o: nat, w: word): (r: seq<byte>)
    requires o + 4 <= |m|
    ensures |r| == |m|
    ensures Get32(r, o) == w
    ensures Same(m, r, 0, o) && Same(m, r, o + 4, |m|)
  {
    var w1 := w / 0x100;
    var w2 := w1 / 0x100;
    m[o := w % 0x100][o + 1 := w1 % 0x100][o + 2 := w2 % 0x100][o + 3 := w2 / 0x100]
  }

  /** The two memories hold the same bytes from lo up to hi. */
  ghost predicate Same(m: seq<byte>, r: seq<byte>, lo: int, hi: int) {
    forall i {:trigger m[i]} {:trigger r[i]} :: lo <= i < hi && 0 <= i < |m| && i < |r| ==> r[i] == m[i]
  }

  lemma SameWord(m: seq<byte>, r: seq<byte>, lo: int, hi: int, o: nat)
    requires Same(m, r, lo, hi) && lo <= o && o + 4 <= hi && o + 4 <= |m| && o + 4 <= |r|
    ensures Get32(r, o) == Get32(m, o)
  {
  }

  /** memmove: `k` bytes from `src` to `dst`, which may overlap. */
  function Move(m: seq<byte>, dst: nat, src: nat, k: nat): (r: seq<byte>)
    requires dst + k <= |m| && src + k <= |m|
    ensures |r| == |m|
    ensures forall i {:trigger r[i]} :: dst <= i < dst + k ==> r[i] == m[i - dst + src]
    ensures Same(m, r, 0, dst) && Same(m, r, dst + k, |m|)
  {
    m[..dst] + m[src..src + k] + m[dst + k..]
  }

  /** memset to zero. */
  function Zero(m: seq<byte>, o: nat, k: nat): (r: seq<byte>)
    requires o + k <= |m|
    ensures |r| == |m|
    ensures forall i {:trigger r[i]} :: o <= i < o + k ==> r[i] == 0
    ensures Same(m, r, 0, o) && Same(m, r, o + k, |m|)
  {
    m[..o] + seq(k, _ => 0) + m[o + k..]
  }

  /** The n bytes at p. */
  function Slice(m: seq<byte>, p: nat, n: nat): seq<byte> {
    if p + n <= |m| then m[p..p + n] else []
  }
}
