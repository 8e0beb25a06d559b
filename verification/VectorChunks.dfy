/**
Where the elements of a chunked vector are.  The first chunk holds `first` elements and each further one as
many as all before it, so that no element moves when the vector grows.
*/
module VectorChunks {
  import opened Bytes

  // ---- Powers of two ----

  function Pow2(k: nat): (r: nat)
    ensures r > k
  {
    if k == 0 then 1 else 2 * Pow2(k - 1)
  }

  lemma {:induction false} Pow2Monotone(a: nat, b: nat)
    requires a <= b
    ensures Pow2(a) <= Pow2(b)
    ensures a < b ==> 2 * Pow2(a) <= Pow2(b)
  {
    if a < b { Pow2Monotone(a, b - 1); }
  }

  /** The position of the top bit of x. */
  function Log2(x: nat): (r: nat)
    requires x > 0
    ensures Pow2(r) <= x < Pow2(r + 1)
  {
    if x == 1 then 0 else 1 + Log2(x / 2)
  }

  lemma Log2Unique(x: nat, r: nat)
    requires x > 0 && Pow2(r) <= x < Pow2(r + 1)
    ensures Log2(x) == r
  {
    if Log2(x) < r { Pow2Monotone(Log2(x) + 1, r); }
    if r < Log2(x) { Pow2Monotone(r + 1, Log2(x)); }
  }

  lemma Pow2Step(k: nat)
    ensures Pow2(k + 1) == 2 * Pow2(k)
  {
  }

  lemma ScaledStep(x: nat, k: nat)
    ensures x * Pow2(k + 1) == 2 * (x * Pow2(k))
  {
    Pow2Step(k);
    hide Pow2;
  }

  lemma {:induction false} Log2Scaled(x: nat, k: nat)
    requires x > 0
    ensures x * Pow2(k) > 0 && Log2(x * Pow2(k)) == Log2(x) + k
  {
    hide Log2;
    if k > 0 {
      Log2Scaled(x, k - 1);
      ScaledStep(x, k - 1);
      Log2Twice(x * Pow2(k - 1));
    }
  }

  lemma Log2Twice(y: nat)
    requires y > 0
    ensures Log2(2 * y) == Log2(y) + 1
  {
    hide Log2, Pow2;
    Pow2Step(Log2(y));
    Pow2Step(Log2(y) + 1);
    Log2Unique(2 * y, Log2(y) + 1);
  }

  /** Of two numbers the one with the lower top bit is the smaller. */
  lemma Log2Orders(x: nat, y: nat)
    requires x > 0 && y > 0
    ensures Log2(x) < Log2(y) ==> x < y
  {
    if Log2(x) < Log2(y) { Pow2Monotone(Log2(x) + 1, Log2(y)); }
  }

  /** The number of zero bits above the top one of a 32-bit word. */
  function LeadingZeros(x: word): (r: nat)
    requires x > 0
    ensures r <= 31
  {
    WordBits(x);
    31 - Log2(x)
  }

  lemma WordBits(x: word)
    requires x > 0
    ensures Log2(x) <= 31
  {
    hide Pow2, Log2;
    Pow2Of32();
    if Log2(x) > 31 { Pow2Monotone(32, Log2(x)); }
  }

  lemma Pow2Of32()
    ensures Pow2(32) == WORD_LIMIT
  {
    Pow2Of4();
    hide Pow2;
    Pow2Sum(4, 4);
    Pow2Sum(8, 8);
    Pow2Sum(16, 16);
  }

  lemma Pow2Of4()
    ensures Pow2(4) == 16
  {
    assert Pow2(2) == 4;
  }

  lemma {:induction false} Pow2Sum(a: nat, b: nat)
    ensures Pow2(a + b) == Pow2(b) * Pow2(a)
  {
    hide Pow2;
    if a == 0 {
      Unscaled(Pow2(b));
    } else {
      Pow2Sum(a - 1, b);
      ScaledStep(Pow2(b), a - 1);
      Pow2Step(a - 1 + b);
    }
  }

  lemma Unscaled(x: nat)
    ensures x * Pow2(0) == x
  {
  }

  /** `size` doubled k times. */
  function DoubledBy(size: nat, k: nat): nat {
    size * Pow2(k)
  }

  lemma DoubledOnce(size: nat, k: nat)
    ensures DoubledBy(size, 0) == size && DoubledBy(size, k + 1) == DoubledBy(2 * size, k) == 2 * DoubledBy(size, k)
  {
  }

  // ---- Chunks ----

  /** Chunk k holds the elements from Begin up to End. */
  function Begin(first: nat, k: nat): nat {
    if k == 0 then 0 else first * Pow2(k - 1)
  }

  function End(first: nat, k: nat): nat {
    first * Pow2(k)
  }

  predicate InChunk(first: nat, k: nat, i: nat) {
    Begin(first, k) <= i < End(first, k)
  }

  lemma EndMonotone(first: nat, a: nat, b: nat)
    requires a <= b
    ensures End(first, a) <= End(first, b)
  {
    hide Pow2;
    Pow2Monotone(a, b);
    Multiplied(first, Pow2(a), Pow2(b));
  }

  lemma Multiplied(x: nat, a: nat, b: nat)
    requires a <= b
    ensures x * a <= x * b
  {
  }

  /** Each chunk begins where the one before it ends, and doubles the capacity. */
  lemma ChunksMeet(first: nat, k: nat)
    ensures Begin(first, k + 1) == End(first, k)
    ensures k > 0 ==> End(first, k) - Begin(first, k) == Begin(first, k)
    ensures Begin(first, k) <= End(first, k)
  {
    if k > 0 { assert first * Pow2(k) == 2 * (first * Pow2(k - 1)); }
  }

  lemma InOneChunk(first: nat, a: nat, b: nat, i: nat)
    requires InChunk(first, a, i) && InChunk(first, b, i)
    ensures a == b
  {
    if a < b { EndMonotone(first, a, b - 1); }
    if b < a { EndMonotone(first, b, a - 1); }
  }

  /** The chunk that holds element i. */
  function ChunkOf(first: nat, i: nat): (k: nat)
    requires first > 0
    ensures InChunk(first, k, i)
  {
    if i < first then 0
    else
      var q := i / first;
      assert q > 0;
      var k := 1 + Log2(q);
      Scaled(first, i, Pow2(k - 1));
      Scaled(first, i, Pow2(k));
      k
  }

  lemma Scaled(first: nat, i: nat, p: nat)
    requires first > 0
    ensures p <= i / first <==> first * p <= i
  {
    var q := i / first;
    assert first * q <= i < first * (q + 1);
    if p <= q { assert first * p <= first * q; } else { assert first * (q + 1) <= first * p; }
  }

  /** The chunk is below n exactly for the elements the first n chunks have room for. */
  lemma ChunkBelow(first: nat, i: nat, n: nat)
    requires first > 0
    ensures ChunkOf(first, i) <= n <==> i < End(first, n)
  {
    var k := ChunkOf(first, i);
    if k <= n { EndMonotone(first, k, n); } else { EndMonotone(first, n, k - 1); }
  }

  // ---- Finding the chunk by leading zeros ----

  /** The number of the chunk of element i past the first chunk, less one, from the two numbers' leading zeros. */
  function ChunkShift(first: word, i: word): (s: int)
    requires 0 < first <= i
  {
    var shift := LeadingZeros(first) - LeadingZeros(i);
    if shift >= 0 && first * Pow2(shift) > i then shift - 1 else shift
  }

  /** The chunk found by leading zeros is the one that holds the element. */
  lemma ShiftFindsChunk(first: word, i: word)
    requires 0 < first <= i
    ensures ChunkShift(first, i) >= 0 && ChunkShift(first, i) + 1 == ChunkOf(first, i)
  {
    hide Log2, Pow2, ChunkOf;
    Log2Orders(i, first);
    WordBits(first);
    WordBits(i);
    Unscaled(first);
    var d := Log2(i) - Log2(first);
    Log2Scaled(first, d + 1);
    Log2Orders(i, first * Pow2(d + 1));
    if first * Pow2(d) > i {
      Log2Scaled(first, d - 1);
      Log2Orders(first * Pow2(d - 1), i);
      InOneChunk(first, d, ChunkOf(first, i), i);
    } else {
      InOneChunk(first, d + 1, ChunkOf(first, i), i);
    }
  }
}
