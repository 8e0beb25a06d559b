/**
What growing a chunked vector comes to, without the steps: blocks of just the bytes their elements take, no chunk
more than is wanted, and a failure only where memory could not be had.
*/
module VectorLaws {
  import opened Bytes
  import opened Layouts
  import opened HeapSpec
  import opened HeapLaws
  import opened AllocatedBlocks
  import opened VectorChunks
  import opened VectorMemory
  import opened VectorGrowth
  import opened VectorOutcomes

  // ---- Blocks of the right size ----

  lemma KeepsGiven(l: Layout, g: Layout, but: int, p: nat, n: nat, small: bool)
    requires Keeps(l, g, but) && GivenFor(l, p, n, small) && p - HEADER != but
    ensures GivenFor(g, p, n, small)
  {
    assert Live(l, p - HEADER);
  }

  /** The chunks after the first `from` were given just the bytes of their elements: as many as all chunks before. */
  ghost predicate ChunksExact(l: Layout, v: Vec, from: nat, small: bool) {
    forall k: nat {:trigger ChunkExact(l, v, k, small)} :: from < k <= |v.chunks| ==> ChunkExact(l, v, k, small)
  }

  ghost predicate ChunkExact(l: Layout, v: Vec, k: nat, small: bool) {
    1 <= k <= |v.chunks| ==> GivenFor(l, v.chunks[k - 1], v.first * Pow2(k - 1) * v.stride, small)
  }

  /** What a vector has got since it had `from` chunks: those, and a directory of one more word than chunks. */
  ghost predicate GotExactly(l: Layout, v: Vec, from: nat, small: bool) {
    ChunksExact(l, v, from, small) && (|v.chunks| > from ==> Exactly(l, v.dir, 4 * (|v.chunks| + 1)))
  }

  lemma ChunkBytesAre(v: Vec, k: nat)
    requires 0 < k && 0 < v.first && 8 <= v.stride
    ensures ChunkBytes(v.first, k, v.stride) == v.first * Pow2(k - 1) * v.stride > 0
  {
    SomeBytes(v.first, Pow2(k - 1), v.stride);
  }

  lemma SomeBytes(a: nat, b: nat, c: nat)
    requires a > 0 && b > 0 && c > 0
    ensures a * b * c > 0
  {
    assert a * b > 0;
  }

  /** The chunk and the directory that are added are just big enough, and those there were stay so. */
  lemma NextExact(s: State, v: Vec, cfg: Config, from: nat, b: nat)
    requires s.Inv() && Stored(s.l, v) && v.block != 0 && from <= |v.chunks| && GotExactly(s.l, v, from, cfg.bitmaps)
    requires b != 0 ==> GivenFor(s.l, v.block, b, cfg.bitmaps)
    ensures var r := NextChunk(s, v, cfg);
      r.Grown? ==>
        && GotExactly(r.s.l, r.v, from, cfg.bitmaps) && r.v.block == v.block
        && (b != 0 ==> GivenFor(r.s.l, v.block, b, cfg.bitmaps))
  {
    hide State.Inv, Stored, Allocation, DirectoryFor, Keeps, ChunkBytes, Exactly, GivenFor, Room, Vec.Owns, GotExactly;
    StrideIs(s.l, v);
    var k := |v.chunks| + 1;
    var bytes := ChunkBytes(v.first, k, v.stride);
    ChunkBytesAre(v, k);
    if |v.chunks| < MAX_CHUNKS && bytes < WORD_LIMIT {
      NextChunkOk(s, v, cfg);
      ChunkBytesFit(v.first, k, v.stride);
      AllocationIsOk(s, bytes, true, cfg, true);
      AllocationGives(s, bytes, true, cfg);
      var r := Allocation(s, bytes, true, cfg, true);
      if r.Block? {
        var t := r.s;
        AllocatedKeeps(s, r, bytes);
        GotKept(s.l, t.l, v, from, b, cfg.bitmaps);
        LayoutInv(t);
        ListedExact(t, v, r.p, cfg, from, b);
      }
    }
  }

  lemma AllocatedKeeps(s: State, r: Outcome, n: nat)
    requires AllocationOk(s, r, n) && r.Block?
    ensures Keeps(s.l, r.s.l, -1)
  {
  }

  lemma GotKept(l: Layout, g: Layout, v: Vec, from: nat, b: nat, small: bool)
    requires Keeps(l, g, -1) && GotExactly(l, v, from, small) && (b != 0 ==> GivenFor(l, v.block, b, small))
    ensures ChunksExact(g, v, from, small) && (b != 0 ==> GivenFor(g, v.block, b, small))
  {
    hide Keeps, Exactly, GivenFor, Pow2;
    forall k: nat | from < k <= |v.chunks| ensures ChunkExact(g, v, k, small) {
      assert ChunkExact(l, v, k, small);
      GivenLive(l, v.chunks[k - 1], v.first * Pow2(k - 1) * v.stride, small);
      KeepsGiven(l, g, -1, v.chunks[k - 1], v.first * Pow2(k - 1) * v.stride, small);
    }
    if b != 0 {
      GivenLive(l, v.block, b, small);
      KeepsGiven(l, g, -1, v.block, b, small);
    }
  }

  lemma ListedExact(s: State, v: Vec, c: nat, cfg: Config, from: nat, b: nat)
    requires s.Inv() && Stored(s.l, v) && v.block != 0 && |v.chunks| < MAX_CHUNKS && from <= |v.chunks|
    requires Room(s.l, c, ChunkBytes(v.first, |v.chunks| + 1, v.stride)) && !v.Owns(c - HEADER) && c - HEADER != v.home
    requires GivenFor(s.l, c, ChunkBytes(v.first, |v.chunks| + 1, v.stride), cfg.bitmaps)
    requires ChunksExact(s.l, v, from, cfg.bitmaps) && (b != 0 ==> GivenFor(s.l, v.block, b, cfg.bitmaps))
    ensures var r := ListedChunk(s, v, c, cfg);
      r.Grown? ==> GotExactly(r.s.l, r.v, from, cfg.bitmaps) && (b != 0 ==> GivenFor(r.s.l, v.block, b, cfg.bitmaps))
  {
    hide State.Inv, Stored, Allocation, Reallocation, Keeps, ChunkBytes, Exactly, GivenFor, Room, Vec.Owns, GotExactly;
    hide Release;
    StrideIs(s.l, v);
    DirectoryIsOk(s, v, cfg);
    DirectoryExact(s, v, cfg);
    var r := DirectoryFor(s, v, cfg);
    if r.Block? {
      GivenLive(s.l, c, ChunkBytes(v.first, |v.chunks| + 1, v.stride), cfg.bitmaps);
      NotDirectory(s.l, v, c);
      LayoutInv(s);
      AddedExact(s.l, r.s.l, v, c, r.p, from, b, cfg.bitmaps);
    }
  }

  lemma GivenLive(l: Layout, p: nat, n: nat, small: bool)
    requires GivenFor(l, p, n, small)
    ensures LiveAt(l, p)
  {
  }

  lemma DirectoryExact(s: State, v: Vec, cfg: Config)
    requires s.Inv() && |v.chunks| <= MAX_CHUNKS && (v.dir != 0 ==> LiveAt(s.l, v.dir))
    ensures var r := DirectoryFor(s, v, cfg); r.Block? ==> Exactly(r.s.l, r.p, 4 * (|v.chunks| + 2))
  {
    hide State.Inv, Allocation, Reallocation, Exactly;
    var n := 4 * (|v.chunks| + 2);
    GivenExactly(s, n, true, cfg);
    if v.dir != 0 { ResizedExactly(s, v.dir, n, true, cfg); }
  }

  /** A directory is allocated, or resized as any block is, to just one word more than there will be chunks. */
  lemma DirectoryIsExact(s: State, v: Vec, cfg: Config)
    requires s.Inv() && !s.failed && |v.chunks| <= MAX_CHUNKS && (v.dir != 0 ==> LiveAt(s.l, v.dir))
    ensures var r, n := DirectoryFor(s, v, cfg), 4 * (|v.chunks| + 2);
      && (if v.dir == 0 then Allotted(s, n, true, cfg, r) else Routed(s, v.dir, n, true, cfg, r))
      && (r.Block? ==> Exactly(r.s.l, r.p, n)) && (r.Null? ==> OutOfMemory(s, r.s, cfg))
  {
    hide State.Inv, Allocation, Reallocation, Exactly, Allotted, Routed, OutOfMemory;
    var n := 4 * (|v.chunks| + 2);
    DirectoryExact(s, v, cfg);
    AllocationAllots(s, n, true, cfg);
    NoBlockNoMemory(s, n, true, cfg);
    if v.dir != 0 {
      ReallocationRoutes(s, v.dir, n, true, cfg);
      NotResizedNoMemory(s, v.dir, n, true, cfg);
    }
  }

  lemma AddedExact(l: Layout, g: Layout, v: Vec, c: nat, q: nat, from: nat, b: nat, small: bool)
    requires l.Inv() && Stored(l, v) && v.block != 0 && Keeps(l, g, DirTile(v)) && from <= |v.chunks| && c >= HEADER
    requires ChunksExact(l, v, from, small) && (b != 0 ==> GivenFor(l, v.block, b, small)) && DirTile(v) != c - HEADER
    requires GivenFor(l, c, ChunkBytes(v.first, |v.chunks| + 1, v.stride), small) && Exactly(g, q, 4 * (|v.chunks| + 2))
    ensures GotExactly(g, WithChunk(v, c, q), from, small) && (b != 0 ==> GivenFor(g, v.block, b, small))
  {
    hide Layout.Inv, Stored, Keeps, Exactly, GivenFor, Pow2, ChunkBytes;
    var w := WithChunk(v, c, q);
    StrideIs(l, v);
    forall k: nat | from < k <= |w.chunks| ensures ChunkExact(g, w, k, small) {
      if k <= |v.chunks| {
        assert ChunkExact(l, v, k, small);
        DirApart(l, v, k);
        KeepsGiven(l, g, DirTile(v), v.chunks[k - 1], v.first * Pow2(k - 1) * v.stride, small);
      } else {
        ChunkBytesAre(v, k);
        KeepsGiven(l, g, DirTile(v), c, ChunkBytes(v.first, k, v.stride), small);
      }
    }
    if b != 0 {
      if v.dir != 0 { DirApart(l, v, 0); }
      GivenLive(l, v.block, b, small);
      KeepsGiven(l, g, DirTile(v), v.block, b, small);
    }
  }

  // ---- How far it grows, and when it does not ----

  /** There is room for n elements, but was not before the last chunk. */
  ghost predicate JustEnough(v: Vec, w: Vec, n: nat) {
    n <= w.Capacity() && (|w.chunks| > |v.chunks| ==> w.first * Pow2(|w.chunks| - 1) < n)
  }

  lemma {:induction false} MoreExact(s: State, v: Vec, n: nat, cfg: Config, from: nat, b: nat)
    requires s.Inv() && Stored(s.l, v) && v.block != 0 && from <= |v.chunks| && GotExactly(s.l, v, from, cfg.bitmaps)
    requires b != 0 ==> GivenFor(s.l, v.block, b, cfg.bitmaps)
    ensures var r := MoreChunks(s, v, n, cfg);
      r.Grown? ==>
        && GotExactly(r.s.l, r.v, from, cfg.bitmaps) && JustEnough(v, r.v, n)
        && (b != 0 ==> GivenFor(r.s.l, v.block, b, cfg.bitmaps))
    decreases MAX_CHUNKS + 1 - |v.chunks|
  {
    hide State.Inv, Stored, NextChunk, Exactly, GivenFor, GotExactly, Pow2, Vec.Capacity;
    StrideIs(s.l, v);
    if n > v.Capacity() {
      NextExact(s, v, cfg, from, b);
      var r := NextChunk(s, v, cfg);
      if r.Grown? {
        StrideIs(r.s.l, r.v);
        MoreExact(r.s, r.v, n, cfg, from, b);
        NotBefore(v, r.v, MoreChunks(r.s, r.v, n, cfg), n);
      }
    }
  }

  lemma NotBefore(v: Vec, w: Vec, r: Growth, n: nat)
    requires v.block != 0 && n > v.Capacity() && |w.chunks| == |v.chunks| + 1 && w.first == v.first
    requires r.Grown? ==> JustEnough(w, r.v, n) && r.v.first == w.first && w.chunks <= r.v.chunks
    ensures r.Grown? ==> JustEnough(v, r.v, n)
  {
  }

  /** What a vector that grew for n elements has got: a first block, chunks and a directory, just big enough. */
  lemma GrowsExactly(s: State, v: Vec, n: nat, first: nat, cfg: Config)
    requires s.Inv() && Stored(s.l, v) && 0 < first
    ensures var r := Growing(s, v, n, first, cfg);
      r.Grown? ==>
        && GotExactly(r.s.l, r.v, |v.chunks|, cfg.bitmaps) && JustEnough(v, r.v, n)
        && (if v.block != 0 then r.v.block == v.block && r.v.first == v.first && v.chunks <= r.v.chunks
            else r.v.first == first && GivenFor(r.s.l, r.v.block, 16 + first * v.stride, cfg.bitmaps))
  {
    hide State.Inv, Stored, MoreChunks, Exactly, GivenFor, Allocation, Vec.Capacity;
    StrideIs(s.l, v);
    if v.block != 0 {
      MoreExact(s, v, n, cfg, |v.chunks|, 0);
    } else {
      var bytes := BlockBytes(first, v.stride);
      if bytes < WORD_LIMIT {
        FirstChunkOk(s, v, first, cfg);
        BlockBytesFit(first, v.stride);
        AllocationGives(s, bytes, true, cfg);
        var r := FirstChunk(s, v, first, cfg);
        if r.Grown? { MoreExact(r.s, r.v, n, cfg, 0, bytes); }
      }
    }
  }

  lemma ReleaseFails(s: State, p: nat)
    requires s.Inv() && LiveAt(s.l, p)
    ensures Release(s, p).failed == s.failed
  {
    hide Layout.Tiled, Layout.Listed;
    ReleaseIsOk(s, p);
  }

  /** A chunk that is not too long for a word is added unless memory is not to be had. */
  lemma NextFails(s: State, v: Vec, cfg: Config)
    requires s.Inv() && Stored(s.l, v) && v.block != 0 && |v.chunks| < MAX_CHUNKS
    requires v.first * Pow2(|v.chunks|) * v.stride <= 0xFFFF_FFF8
    ensures var r := NextChunk(s, v, cfg);
      (r.Full? ==> OutOfMemory(s, r.s, cfg)) && (r.Grown? ==> !s.failed && !r.s.failed)
  {
    hide State.Inv, Stored, Allocation, Reallocation, DirectoryFor, ChunkBytes, Room, Vec.Owns, Release, Pow2;
    StrideIs(s.l, v);
    var k := |v.chunks| + 1;
    ChunkBytesAre(v, k);
    var bytes := ChunkBytes(v.first, k, v.stride);
    NextChunkOk(s, v, cfg);
    NoBlockNoMemory(s, bytes, true, cfg);
    var r := Allocation(s, bytes, true, cfg, true);
    if r.Block? { ListedFails(r.s, v, r.p, cfg); }
  }

  lemma ListedFails(s: State, v: Vec, c: nat, cfg: Config)
    requires s.Inv() && Stored(s.l, v) && v.block != 0 && |v.chunks| < MAX_CHUNKS && !s.failed
    requires Room(s.l, c, ChunkBytes(v.first, |v.chunks| + 1, v.stride)) && !v.Owns(c - HEADER) && c - HEADER != v.home
    ensures var r := ListedChunk(s, v, c, cfg); (r.Full? ==> OutOfMemory(s, r.s, cfg)) && (r.Grown? ==> !r.s.failed)
  {
    hide State.Inv, Stored, Allocation, Reallocation, ChunkBytes, Room, Vec.Owns, Release;
    StrideIs(s.l, v);
    ListedChunkOk(s, v, c, cfg);
    var n := 4 * (|v.chunks| + 2);
    NoBlockNoMemory(s, n, true, cfg);
    if v.dir != 0 {
      NotResizedNoMemory(s, v.dir, n, true, cfg);
      ReallocationIsOk(s, v.dir, n, true, cfg);
    }
    var r := DirectoryFor(s, v, cfg);
    if r.Null? { ReleaseFails(r.s, c); }
  }

  lemma {:induction false} MoreFails(s: State, v: Vec, n: nat, cfg: Config)
    requires s.Inv() && Stored(s.l, v) && v.block != 0 && n < 0x8000_0000 && n * v.stride <= 0xFFFF_FFF8
    ensures var r := MoreChunks(s, v, n, cfg); r.Full? ==> OutOfMemory(s, r.s, cfg)
    decreases MAX_CHUNKS + 1 - |v.chunks|
  {
    hide State.Inv, Stored, NextChunk, Pow2, Vec.Capacity;
    StrideIs(s.l, v);
    if n > v.Capacity() {
      ChunkNotTooLong(v, n);
      NextFails(s, v, cfg);
      var r := NextChunk(s, v, cfg);
      if r.Grown? {
        StrideIs(r.s.l, r.v);
        MoreFails(r.s, r.v, n, cfg);
      }
    }
  }

  /** A vector of fewer elements than are wanted has few chunks, and the next is not longer than what is wanted. */
  lemma ChunkNotTooLong(v: Vec, n: nat)
    requires v.block != 0 && 0 < v.first && |v.chunks| <= MAX_CHUNKS && v.Capacity() < n < 0x8000_0000
    requires n * v.stride <= 0xFFFF_FFF8
    ensures |v.chunks| < MAX_CHUNKS && v.first * Pow2(|v.chunks|) * v.stride <= 0xFFFF_FFF8
  {
    hide Pow2;
    var k := |v.chunks|;
    assert v.Capacity() == v.first * Pow2(k);
    Multiplied(v.stride, v.first * Pow2(k), n);
    if k == MAX_CHUNKS {
      HalfOfWords();
    }
  }

  lemma HalfOfWords()
    ensures Pow2(31) == 0x8000_0000
  {
    assert Pow2(4) == 16 && Pow2(8) == 256;
    Pow2Sum(8, 8);
    Pow2Sum(16, 8);
    Pow2Sum(24, 7);
  }

  /** A vector that is not too long for its words to count does not fail to grow unless memory is not to be had. */
  lemma GrowsOrOutOfMemory(s: State, v: Vec, n: nat, first: nat, cfg: Config)
    requires s.Inv() && Stored(s.l, v) && 0 < first && n < 0x8000_0000 && n * v.stride <= 0xFFFF_FFF8
    requires v.block == 0 ==> 16 + first * v.stride <= 0xFFFF_FFF8
    ensures var r := Growing(s, v, n, first, cfg); r.Full? ==> OutOfMemory(s, r.s, cfg)
  {
    hide State.Inv, Stored, MoreChunks, Allocation, Vec.Capacity;
    StrideIs(s.l, v);
    if v.block != 0 {
      MoreFails(s, v, n, cfg);
    } else {
      var bytes := BlockBytes(first, v.stride);
      FirstChunkOk(s, v, first, cfg);
      BlockBytesFit(first, v.stride);
      NoBlockNoMemory(s, bytes, true, cfg);
      var r := FirstChunk(s, v, first, cfg);
      if r.Grown? { MoreFails(r.s, r.v, n, cfg); }
    }
  }
}
