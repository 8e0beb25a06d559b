/**
What allocating, resizing and freeing other blocks do to a chunked vector, and the vector with one more chunk.
*/
module VectorGrowth {
  import opened Bytes
  import opened Layouts
  import opened HeapSpec
  import opened HeapMemory
  import opened PayloadBuffers
  import opened AllocatedBlocks
  import opened VectorChunks
  import opened VectorMemory

  /** A vector none of whose blocks changed is as it was. */
  lemma PassedHolds(m: seq<byte>, r: seq<byte>, l: Layout, g: Layout, but: int, v: Vec, count: nat, metadata: nat)
    requires l.Inv() && Passed(m, r, l, g, but) && Holds(m, l, v, count, metadata)
    requires but != v.home && (but >= 0 ==> !v.Owns(but))
    ensures Holds(r, g, v, count, metadata)
    ensures Elements(r, v, v.Capacity()) == Elements(m, v, v.Capacity())
  {
    hide Layout.Tiled, Layout.Listed, Pow2, Begin, VectorChunks.End, ChunkOf, Passed, Elements, Different, Vec.Blocks,
      Vec.Capacity;
    PassedOwn(m, r, l, g, but, v);
    PassedStored(m, r, l, g, but, v);
    PassedWritten(m, r, l, g, but, v, count, metadata);
    PassedSizes(m, r, l, g, but);
    ElementsKept(m, r, l, v, v.Capacity());
  }

  lemma PassedOwn(m: seq<byte>, r: seq<byte>, l: Layout, g: Layout, but: int, v: Vec)
    requires l.Inv() && Passed(m, r, l, g, but) && (but >= 0 ==> !v.Owns(but))
    ensures forall o: nat :: Live(l, o) && v.Owns(o) ==> Same(m, r, o + HEADER, l.End(o))
  {
    forall o: nat | Live(l, o) && v.Owns(o) ensures Same(m, r, o + HEADER, l.End(o)) {
      PassedBlock(m, r, l, g, but, o);
    }
  }

  lemma PassedStored(m: seq<byte>, r: seq<byte>, l: Layout, g: Layout, but: int, v: Vec)
    requires l.Inv() && Passed(m, r, l, g, but) && Stored(l, v) && but != v.home && (but >= 0 ==> !v.Owns(but))
    ensures Stored(g, v)
  {
    hide Layout.Tiled, Layout.Listed, Pow2, Begin, VectorChunks.End, Passed;
    BlocksOf(v);
    PassedBlock(m, r, l, g, but, v.home);
    if v.block != 0 { PassedRoom(m, r, l, g, but, v.block, BLOCK_HEADER + v.first * v.stride); }
    if v.dir != 0 { PassedRoom(m, r, l, g, but, v.dir, 4 * (|v.chunks| + 1)); }
    forall k: nat ensures ChunkIn(g, v, k) {
      assert ChunkIn(l, v, k);
      if 1 <= k <= |v.chunks| { PassedRoom(m, r, l, g, but, v.chunks[k - 1], Begin(v.first, k) * v.stride); }
    }
  }

  lemma PassedWritten(m: seq<byte>, r: seq<byte>, l: Layout, g: Layout, but: int, v: Vec, count: nat, metadata: nat)
    requires l.Inv() && Passed(m, r, l, g, but) && Holds(m, l, v, count, metadata)
    requires but != v.home && (but >= 0 ==> !v.Owns(but))
    ensures Written(r, v, count, metadata)
  {
    hide Layout.Tiled, Layout.Listed, Pow2, Begin, VectorChunks.End;
    BlocksOf(v);
    PassedBlock(m, r, l, g, but, v.home);
    if v.block != 0 { BlockRoom(l, v); PassedBlock(m, r, l, g, but, v.block - HEADER); }
    if v.dir != 0 { PassedRoom(m, r, l, g, but, v.dir, 4 * (|v.chunks| + 1)); }
    hide Stored, Passed, Live, Vec.Owns, Room;
    forall j: nat ensures DirWord(r, v, j) { assert DirWord(m, v, j); }
  }

  lemma PassedSpares(m: seq<byte>, r: seq<byte>, l: Layout, g: Layout, but: int, v: Vec)
    requires l.Inv() && Passed(m, r, l, g, but) && AtHome(l, v) && (but < 0 || v.Owns(but))
    ensures Spares(m, r, l, g, v)
  {
    forall o: nat ensures SparesBlock(m, r, l, g, v, o) {
      if Live(l, o) && !v.Owns(o) { PassedBlock(m, r, l, g, but, o); }
    }
  }

  /** Freeing a block that was not there before. */
  lemma FreedSpares(m: seq<byte>, m1: seq<byte>, r: seq<byte>, l: Layout, g: Layout, h: Layout, v: Vec, o: nat)
    requires l.Inv() && g.Inv() && |m| == l.full && AtHome(l, v) && Spares(m, m1, l, g, v) && Passed(m1, r, g, h, o)
    requires !Live(l, o)
    ensures Spares(m, r, l, h, v)
  {
    forall x: nat ensures SparesBlock(m, r, l, h, v, x) {
      assert SparesBlock(m, m1, l, g, v, x);
      if Live(l, x) && !v.Owns(x) {
        assert l.TileOk(x);
        PassedBlock(m1, r, g, h, o, x);
      }
    }
  }

  // ---- The first chunk ----

  /** The words of a new vector's block. */
  ghost predicate BlockWords(m: seq<byte>, p: nat, stride: nat, first: nat, metadata: nat) {
    && p + BLOCK_HEADER <= |m| && Get32(m, p) == stride && Get32(m, p + 4) == first
    && Get32(m, p + 8) == metadata && Get32(m, p + 12) == 0
  }

  /** Writing a block's words and its offset in the header gives the vector its first chunk. */
  lemma Started(m: seq<byte>, m1: seq<byte>, r: seq<byte>, head: nat, heads: seq<nat>, l: Layout, v: Vec, w: Vec,
        metadata: nat)
    requires l.Inv() && Agrees(m, head, heads, l, NONE) && Holds(m, l, v, 0, metadata) && v.block == 0
    requires w == v.(block := w.block, first := w.first) && 0 < w.first
    requires Room(l, w.block, BLOCK_HEADER + w.first * w.stride) && w.block - HEADER != v.home
    requires OnlyIn(m, m1, w.block, w.block + BLOCK_HEADER) && BlockWords(m1, w.block, w.stride, w.first, metadata)
    requires OnlyIn(m1, r, w.header + 4, w.header + 8) && Get32(r, w.header + 4) == w.block
    ensures Agrees(r, head, heads, l, NONE) && Holds(r, l, w, 0, metadata) && Spares(m, r, l, l, w)
  {
    hide Layout.Tiled, Layout.Listed, Pow2, Begin, VectorChunks.End, Agrees, BlockWords, Spares, Written;
    StartedStored(l, v, w);
    StartedWritten(m, m1, r, l, v, w, metadata);
    BlockRoom(l, w);
    BlocksOf(w);
    OwnSpares(m, m1, l, w, w.block - HEADER, w.block, w.block + BLOCK_HEADER);
    HomeSpares(m1, r, l, w);
    SparesBoth(m, m1, r, l, l, l, w, w);
    hide Stored, Room, Vec.Owns;
    WriteAgrees(m, m1, head, heads, l, NONE, w.block - HEADER, w.block, w.block + BLOCK_HEADER);
    WriteAgrees(m1, r, head, heads, l, NONE, w.home, w.header + 4, w.header + 8);
  }

  lemma StartedWritten(m: seq<byte>, m1: seq<byte>, r: seq<byte>, l: Layout, v: Vec, w: Vec, metadata: nat)
    requires l.Inv() && Holds(m, l, v, 0, metadata) && v.block == 0 && Stored(l, w)
    requires w == v.(block := w.block, first := w.first) && w.block != 0
    requires OnlyIn(m, m1, w.block, w.block + BLOCK_HEADER) && BlockWords(m1, w.block, w.stride, w.first, metadata)
    requires OnlyIn(m1, r, w.header + 4, w.header + 8) && Get32(r, w.header + 4) == w.block
    ensures Written(r, w, 0, metadata)
  {
    OwnApart(l, w);
    hide Layout.Tiled, Layout.Listed, Pow2, Begin, VectorChunks.End;
    forall j: nat ensures DirWord(r, w, j) { }
  }

  lemma StartedStored(l: Layout, v: Vec, w: Vec)
    requires l.Inv() && Stored(l, v) && v.block == 0 && w == v.(block := w.block, first := w.first) && 0 < w.first
    requires Room(l, w.block, BLOCK_HEADER + w.first * w.stride) && w.block - HEADER != v.home
    ensures Stored(l, w)
  {
    BlocksOf(w);
    forall k: nat ensures ChunkIn(l, w, k) { }
  }

  /** Writing inside a block of the vector's own. */
  lemma OwnSpares(m: seq<byte>, r: seq<byte>, l: Layout, v: Vec, o: nat, lo: nat, hi: nat)
    requires l.Inv() && |m| == l.full && AtHome(l, v) && Live(l, o) && v.Owns(o) && o + HEADER <= lo <= hi <= l.End(o)
    requires OnlyIn(m, r, lo, hi)
    ensures Spares(m, r, l, l, v)
  {
    forall x: nat ensures SparesBlock(m, r, l, l, v, x) {
      if Live(l, x) && !v.Owns(x) { TilesApart(l, x, o); }
    }
  }

  // ---- One more chunk ----

  /** v with chunk c as its last and its directory at q. */
  function WithChunk(v: Vec, c: nat, q: nat): Vec {
    v.(dir := q, chunks := v.chunks + [c])
  }

  /** Word k of a directory at q is the one v's directory has. */
  ghost predicate Lists(m: seq<byte>, v: Vec, q: nat, k: nat) {
    1 <= k <= |v.chunks| ==> q + 4 * k + 4 <= |m| && Get32(m, q + 4 * k) == v.chunks[k - 1]
  }

  /** The directory at q, resized from v's, still lists v's chunks. */
  ghost predicate Listing(m: seq<byte>, v: Vec, q: nat) {
    forall k: nat :: Lists(m, v, q, k)
  }

  /** What the vector is when its directory has been resized from l to g, before the new one is written. */
  ghost predicate Between(m: seq<byte>, g: Layout, v: Vec, c: nat, q: nat, count: nat, metadata: nat) {
    && |m| == g.full && AtHome(g, v) && 8 <= v.stride < WORD_LIMIT && v.stride % 8 == 0
    && v.block != 0 && 0 < v.first && Room(g, v.block, BLOCK_HEADER + v.first * v.stride)
    && |v.chunks| < MAX_CHUNKS && q != 0 && Room(g, q, 4 * (|v.chunks| + 2))
    && Room(g, c, Begin(v.first, |v.chunks| + 1) * v.stride)
    && (forall k: nat {:trigger ChunkIn(g, v, k)} :: ChunkIn(g, v, k))
    && Different(WithChunk(v, c, q).Blocks()) && !WithChunk(v, c, q).Owns(v.home)
    && v.header + 8 <= |m| && Get32(m, v.header) == count && Get32(m, v.header + 4) == v.block
    && v.block + BLOCK_HEADER <= |m| && Get32(m, v.block) == v.stride && Get32(m, v.block + 4) == v.first
      && Get32(m, v.block + 8) == metadata
    && Listing(m, v, q) && count <= v.Capacity()
  }

  lemma BetweenStored(m: seq<byte>, g: Layout, v: Vec, c: nat, q: nat, count: nat, metadata: nat)
    requires g.Inv() && Between(m, g, v, c, q, count, metadata)
    ensures Stored(g, WithChunk(v, c, q)) && count <= WithChunk(v, c, q).Capacity()
  {
    var w := WithChunk(v, c, q);
    hide Layout.Tiled, Layout.Listed, Pow2, Vec.Blocks, Different, VectorChunks.End, Begin;
    EndMonotone(v.first, |v.chunks|, |w.chunks|);
    forall k: nat ensures ChunkIn(g, w, k) { assert ChunkIn(g, v, k); }
  }

  /** The words that add a chunk: its number and offset in the directory, and the directory's offset in the block. */
  lemma ChunkAdded(m: seq<byte>, m1: seq<byte>, r: seq<byte>, head: nat, heads: seq<nat>, g: Layout, v: Vec, c: nat,
        q: nat,
                   count: nat, metadata: nat)
    requires g.Inv() && Agrees(m, head, heads, g, NONE) && Between(m, g, v, c, q, count, metadata)
    requires DirectoryWords(m, m1, q, |v.chunks|, c)
    requires OnlyIn(m1, r, v.block + 12, v.block + BLOCK_HEADER) && Get32(r, v.block + 12) == q
    ensures Agrees(r, head, heads, g, NONE) && Holds(r, g, WithChunk(v, c, q), count, metadata)
    ensures Spares(m, r, g, g, WithChunk(v, c, q))
    ensures Elements(r, v, v.Capacity()) == Elements(m, v, v.Capacity())
  {
    var w := WithChunk(v, c, q);
    hide Layout.Tiled, Layout.Listed, Pow2, Begin, VectorChunks.End, Agrees, DirectoryWords, Listing, Spares, Written,
      Elements;
    BetweenStored(m, g, v, c, q, count, metadata);
    DirectoryInside(m, m1, q, |v.chunks|, c);
    BetweenRooms(m, g, v, c, q, count, metadata);
    AddedWritten(m, m1, r, g, v, c, q, count, metadata);
    AddedElements(m, m1, r, g, v, c, q, count, metadata);
    hide Between, Vec.Owns, Stored;
    OwnSpares(m, m1, g, w, q - HEADER, q, q + 4 * (|v.chunks| + 2));
    OwnSpares(m1, r, g, w, v.block - HEADER, v.block + 12, v.block + BLOCK_HEADER);
    SparesOn(m, m1, r, g, w);
    WriteAgrees(m, m1, head, heads, g, NONE, q - HEADER, q, q + 4 * (|v.chunks| + 2));
    WriteAgrees(m1, r, head, heads, g, NONE, v.block - HEADER, v.block + 12, v.block + BLOCK_HEADER);
  }

  lemma SparesOn(m: seq<byte>, m1: seq<byte>, r: seq<byte>, l: Layout, v: Vec)
    requires l.Inv() && |m| == l.full && Spares(m, m1, l, l, v) && Spares(m1, r, l, l, v)
    ensures Spares(m, r, l, l, v)
  {
    SparesBoth(m, m1, r, l, l, l, v, v);
  }

  /** The count and the last entry of a directory of num + 1 chunks have been written. */
  ghost predicate DirectoryWords(m: seq<byte>, r: seq<byte>, q: nat, num: nat, c: nat) {
    && q + 4 * (num + 2) <= |m| && OnlyIn(m, r, q, q + 4 * (num + 2)) && Same(m, r, q + 4, q + 4 * (num + 1))
    && Get32(r, q) == num + 1 && Get32(r, q + 4 * (num + 1)) == c
  }

  lemma DirectoryInside(m: seq<byte>, r: seq<byte>, q: nat, num: nat, c: nat)
    requires DirectoryWords(m, r, q, num, c)
    ensures q + 4 * (num + 2) <= |m| && OnlyIn(m, r, q, q + 4 * (num + 2))
  {
  }

  lemma BetweenRooms(m: seq<byte>, g: Layout, v: Vec, c: nat, q: nat, count: nat, metadata: nat)
    requires g.Inv() && Between(m, g, v, c, q, count, metadata)
    ensures LiveAt(g, q) && q + 4 * (|v.chunks| + 2) <= g.End(q - HEADER)
    ensures LiveAt(g, v.block) && v.block + BLOCK_HEADER <= g.End(v.block - HEADER)
    ensures WithChunk(v, c, q).Owns(q - HEADER) && WithChunk(v, c, q).Owns(v.block - HEADER)
    ensures AtHome(g, WithChunk(v, c, q))
    ensures q != v.block && |m| == g.full
  {
    hide Layout.Tiled, Layout.Listed, Pow2, Begin, VectorChunks.End;
    BetweenStored(m, g, v, c, q, count, metadata);
    var w := WithChunk(v, c, q);
    BlocksOf(w);
    BlockRoom(g, w);
    DirApart(g, w, 0);
    RoomInside(g, q, 4 * (|v.chunks| + 2));
  }

  lemma AddedWritten(m: seq<byte>, m1: seq<byte>, r: seq<byte>, g: Layout, v: Vec, c: nat, q: nat, count: nat,
        metadata: nat)
    requires g.Inv() && Between(m, g, v, c, q, count, metadata) && Stored(g, WithChunk(v, c, q))
    requires DirectoryWords(m, m1, q, |v.chunks|, c)
    requires OnlyIn(m1, r, v.block + 12, v.block + BLOCK_HEADER) && Get32(r, v.block + 12) == q
    ensures Written(r, WithChunk(v, c, q), count, metadata)
  {
    hide Layout.Tiled, Layout.Listed, Pow2, Begin, VectorChunks.End, Vec.Blocks, Vec.Owns, Different, Stored, Room,
      LiveAt, Listing;
    AddedApart(m, g, v, c, q, count, metadata);
    AddedDirectory(m, m1, r, v, c, q);
    DirectoryInside(m, m1, q, |v.chunks|, c);
    hide DirectoryWords, Live;
  }

  lemma AddedApart(m: seq<byte>, g: Layout, v: Vec, c: nat, q: nat, count: nat, metadata: nat)
    requires g.Inv() && Between(m, g, v, c, q, count, metadata) && Stored(g, WithChunk(v, c, q))
    ensures v.header + 8 <= v.block || v.block + BLOCK_HEADER <= v.header
    ensures v.header + 8 <= q || q + 4 * (|v.chunks| + 2) <= v.header
    ensures q + 4 * (|v.chunks| + 2) <= v.block || v.block + BLOCK_HEADER <= q
    ensures q + 4 * (|v.chunks| + 2) <= |m|
  {
    hide Layout.Tiled, Layout.Listed, Pow2, Begin, VectorChunks.End, Vec.Blocks, Different, Listing;
    OwnApart(g, WithChunk(v, c, q));
    BetweenRooms(m, g, v, c, q, count, metadata);
    RoomInside(g, q, 4 * (|v.chunks| + 2));
    hide Stored, Between;
    TilesApart(g, q - HEADER, v.block - HEADER);
  }

  lemma AddedDirectory(m: seq<byte>, m1: seq<byte>, r: seq<byte>, v: Vec, c: nat, q: nat)
    requires DirectoryWords(m, m1, q, |v.chunks|, c) && Listing(m, v, q)
    requires OnlyIn(m1, r, v.block + 12, v.block + BLOCK_HEADER)
    requires q + 4 * (|v.chunks| + 2) <= v.block || v.block + BLOCK_HEADER <= q
    ensures Get32(r, q) == |v.chunks| + 1
    ensures forall k: nat :: DirWord(r, WithChunk(v, c, q), k)
  {
    hide Get32;
    SameWord(m1, r, q, q + 4 * (|v.chunks| + 2), q);
    forall k: nat ensures DirWord(r, WithChunk(v, c, q), k) { AddedDirWord(m, m1, r, v, c, q, k); }
  }

  lemma AddedDirWord(m: seq<byte>, m1: seq<byte>, r: seq<byte>, v: Vec, c: nat, q: nat, k: nat)
    requires DirectoryWords(m, m1, q, |v.chunks|, c) && Listing(m, v, q)
    requires OnlyIn(m1, r, v.block + 12, v.block + BLOCK_HEADER)
    requires q + 4 * (|v.chunks| + 2) <= v.block || v.block + BLOCK_HEADER <= q
    ensures DirWord(r, WithChunk(v, c, q), k)
  {
    hide Get32;
    var end := q + 4 * (|v.chunks| + 2);
    if 1 <= k <= |v.chunks| {
      assert Lists(m, v, q, k);
      SameWord(m, m1, q + 4, end - 4, q + 4 * k);
    }
    if 1 <= k <= |v.chunks| + 1 { SameWord(m1, r, q, end, q + 4 * k); }
  }

  lemma AddedElements(m: seq<byte>, m1: seq<byte>, r: seq<byte>, g: Layout, v: Vec, c: nat, q: nat, count: nat,
        metadata: nat)
    requires g.Inv() && Between(m, g, v, c, q, count, metadata) && Stored(g, WithChunk(v, c, q))
    requires OnlyIn(m, m1, q, q + 4 * (|v.chunks| + 2)) && OnlyIn(m1, r, v.block + 12, v.block + BLOCK_HEADER)
    ensures Elements(r, v, v.Capacity()) == Elements(m, v, v.Capacity())
  {
    forall i | 0 <= i < v.Capacity() ensures Element(r, v, i) == Element(m, v, i) {
      AddedElement(m, m1, r, g, v, c, q, count, metadata, i);
    }
  }

  lemma AddedElement(m: seq<byte>, m1: seq<byte>, r: seq<byte>, g: Layout, v: Vec, c: nat, q: nat, count: nat,
        metadata: nat, i: nat)
    requires g.Inv() && Between(m, g, v, c, q, count, metadata) && Stored(g, WithChunk(v, c, q)) && i < v.Capacity()
    requires OnlyIn(m, m1, q, q + 4 * (|v.chunks| + 2)) && OnlyIn(m1, r, v.block + 12, v.block + BLOCK_HEADER)
    ensures Element(r, v, i) == Element(m, v, i)
  {
    var w := WithChunk(v, c, q);
    hide Layout.Tiled, Layout.Listed, Pow2, Begin, VectorChunks.End, Vec.Blocks, Vec.Owns, Different, ChunkOf, Listing;
    var k := ChunkOf(v.first, i);
    ChunkBelow(v.first, i, |v.chunks|);
    BetweenRooms(m, g, v, c, q, count, metadata);
    RunInside(g, w, k, i, 1);
    DirApart(g, w, k);
    TilesApart(g, q - HEADER, ChunkTile(w, k));
    if k > 0 { ChunksApart(g, w, 0, k); TilesApart(g, v.block - HEADER, ChunkTile(w, k)); }
    assert w.RunAt(k, i) == v.At(i);
    hide Stored, Between, Vec.RunAt;
  }

  /** The tile of v's directory, or -1. */
  function DirTile(v: Vec): int {
    if v.dir == 0 then -1 else v.dir - HEADER
  }

  lemma ChunksKept(m: seq<byte>, r: seq<byte>, l: Layout, g: Layout, v: Vec, i: nat)
    requires l.Inv() && Stored(l, v) && v.block != 0 && Passed(m, r, l, g, DirTile(v)) && i < v.Capacity()
    ensures Element(r, v, i) == Element(m, v, i)
  {
    hide Pow2, Layout.Tiled, Layout.Listed, ChunkOf, Begin, VectorChunks.End, Passed, Stored, Live, Vec.Owns, Vec.RunAt;
    StoredFirst(l, v);
    var k := ChunkOf(v.first, i);
    ChunkBelow(v.first, i, |v.chunks|);
    RunInside(l, v, k, i, 1);
    if v.dir != 0 { DirApart(l, v, k); }
    PassedSizes(m, r, l, g, DirTile(v));
    PassedBlock(m, r, l, g, DirTile(v), ChunkTile(v, k));
  }

  /** c and q as the new chunk and directory leave the vector's blocks different. */
  lemma StillDifferent(l: Layout, v: Vec, c: nat, q: nat)
    requires Stored(l, v) && v.block != 0 && LiveAt(l, c) && !v.Owns(c - HEADER) && c - HEADER != v.home
    requires q != 0 && (q == v.dir || !LiveAt(l, q))
    ensures Different(WithChunk(v, c, q).Blocks()) && !WithChunk(v, c, q).Owns(v.home)
  {
    var w := WithChunk(v, c, q);
    BlocksOf(v);
    BlocksOf(w);
    var s := v.Blocks();
    var t := w.Blocks();
    var n := |v.chunks|;
    assert forall k :: 0 <= k < n ==> s[k] == v.chunks[k] && t[k] == v.chunks[k];
    assert s[|s| - 1] == v.block && (v.dir != 0 ==> s[n] == v.dir);
    assert t[n] == c && t[n + 1] == q && t[n + 2] == v.block && |t| == n + 3;
    AllLive(l, v);
  }

  lemma AllLive(l: Layout, v: Vec)
    requires Stored(l, v)
    ensures forall b :: b in v.Blocks() ==> LiveAt(l, b)
  {
    BlocksOf(v);
    forall b | b in v.chunks ensures LiveAt(l, b) {
      var k :| 0 <= k < |v.chunks| && v.chunks[k] == b;
      assert ChunkIn(l, v, k + 1);
    }
  }

  /** Resizing the directory to q leaves all the rest of the vector. */
  lemma DirectoryResized(m: seq<byte>, r: seq<byte>, l: Layout, g: Layout, v: Vec, c: nat, q: nat, size: nat,
        count: nat, metadata: nat)
    requires l.Inv() && Holds(m, l, v, count, metadata) && v.block != 0 && |v.chunks| < MAX_CHUNKS
    requires Passed(m, r, l, g, DirTile(v)) && q != 0 && Room(g, q, 4 * (|v.chunks| + 2))
    requires (q == v.dir || !LiveAt(l, q)) && Listing(r, v, q)
    requires LiveAt(l, c) && !v.Owns(c - HEADER) && c - HEADER != v.home && Room(l, c, size)
    requires size == Begin(v.first, |v.chunks| + 1) * v.stride
    ensures Between(r, g, v, c, q, count, metadata)
    ensures Elements(r, v, v.Capacity()) == Elements(m, v, v.Capacity()) && Spares(m, r, l, g, v)
  {
    hide Layout.Tiled, Layout.Listed, Pow2, Begin, VectorChunks.End, ChunkOf, Different, Vec.Blocks, Listing, Spares;
    BlocksOf(v);
    StoredFirst(l, v);
    StillDifferent(l, v, c, q);
    PassedSpares(m, r, l, g, DirTile(v), v);
    PassedBlock(m, r, l, g, DirTile(v), v.home);
    PassedBlockWords(m, r, l, g, v);
    PassedRoom(m, r, l, g, DirTile(v), c, size);
    PassedChunks(m, r, l, g, v);
    forall i | 0 <= i < v.Capacity() ensures Element(r, v, i) == Element(m, v, i) { ChunksKept(m, r, l, g, v, i); }
  }

  lemma PassedBlockWords(m: seq<byte>, r: seq<byte>, l: Layout, g: Layout, v: Vec)
    requires l.Inv() && Stored(l, v) && v.block != 0 && Passed(m, r, l, g, DirTile(v))
    ensures Room(g, v.block, BLOCK_HEADER + v.first * v.stride) && v.block + BLOCK_HEADER <= |m| <= |r|
    ensures Same(m, r, v.block, v.block + BLOCK_HEADER)
  {
    hide Layout.Tiled, Layout.Listed, Pow2, Begin, VectorChunks.End;
    if v.dir != 0 { DirApart(l, v, 0); }
    BlockRoom(l, v);
    PassedBlock(m, r, l, g, DirTile(v), v.block - HEADER);
  }

  lemma PassedChunks(m: seq<byte>, r: seq<byte>, l: Layout, g: Layout, v: Vec)
    requires l.Inv() && Stored(l, v) && v.block != 0 && Passed(m, r, l, g, DirTile(v))
    ensures forall k: nat {:trigger ChunkIn(g, v, k)} :: ChunkIn(g, v, k)
  {
    hide Layout.Tiled, Layout.Listed, Pow2, Begin, VectorChunks.End, Passed;
    forall k: nat ensures ChunkIn(g, v, k) {
      assert ChunkIn(l, v, k);
      if 1 <= k <= |v.chunks| {
        if v.dir != 0 { DirApart(l, v, k); }
        PassedRoom(m, r, l, g, DirTile(v), v.chunks[k - 1], Begin(v.first, k) * v.stride);
      }
    }
  }

  lemma DirectoryHeld(m: seq<byte>, l: Layout, v: Vec, count: nat, metadata: nat)
    requires Holds(m, l, v, count, metadata) && v.dir != 0
    ensures LiveAt(l, v.dir) && 4 * (|v.chunks| + 1) <= Recorded(l.tiles[v.dir - HEADER])
    ensures forall k: nat {:trigger DirWord(m, v, k)} :: DirWord(m, v, k)
  {
  }

  /** A directory that was resized passes every other block, and lists the chunks it did. */
  lemma DirectoryPasses(s: State, t: State, cfg: Config, v: Vec, q: nat, n: nat, m: seq<byte>, r: seq<byte>)
    requires s.Inv() && |m| == s.l.full && |r| == t.l.full && n == 4 * (|v.chunks| + 2) <= MAX_REQUEST && v.dir != 0
    requires LiveAt(s.l, v.dir) && 4 * (|v.chunks| + 1) <= Recorded(s.l.tiles[v.dir - HEADER])
    requires forall k: nat {:trigger DirWord(m, v, k)} :: DirWord(m, v, k)
    requires Gives(Reallocation(s, v.dir, n, true, cfg), q, true, t)
    requires Brings(m, r, s.l, v.dir, q, Recorded(s.l.tiles[v.dir - HEADER]), n, false)
    ensures q == 0 ==> Passed(m, r, s.l, t.l, -1)
    ensures q != 0 ==> Passed(m, r, s.l, t.l, DirTile(v)) && Room(t.l, q, n) && (q == v.dir || !LiveAt(s.l, q))
    ensures q != 0 ==> Listing(r, v, q)
  {
    hide Reallocation, Layout.Tiled, Layout.Listed, Kept, Keeps, Align8, Carried, Listing, DirWord;
    Align8Covers(n);
    ReallocationIsOk(s, v.dir, n, true, cfg);
    if q != 0 { ListingCarried(m, r, v, q, Recorded(s.l.tiles[v.dir - HEADER]), n); }
  }

  lemma ListingCarried(m: seq<byte>, r: seq<byte>, v: Vec, q: nat, recorded: nat, n: nat)
    requires Carried(m, r, v.dir, q, recorded, n, false) && 4 * (|v.chunks| + 1) <= recorded
    requires 4 * (|v.chunks| + 1) <= n
    requires forall k: nat {:trigger DirWord(m, v, k)} :: DirWord(m, v, k)
    ensures Listing(r, v, q)
  {
    forall k: nat | 1 <= k <= |v.chunks| ensures q + 4 * k + 4 <= |r| && Get32(r, q + 4 * k) == v.chunks[k - 1] {
      assert DirWord(m, v, k);
      var o := v.dir + 4 * k;
      var p := q + 4 * k;
      assert r[p] == m[o] && r[p + 1] == m[o + 1] && r[p + 2] == m[o + 2] && r[p + 3] == m[o + 3];
    }
  }

  lemma NoDirectory(m: seq<byte>, v: Vec, q: nat)
    requires v.chunks == []
    ensures Listing(m, v, q)
  {
  }

  // ---- Releasing ----

  /** The blocks are allocated and different. */
  ghost predicate Freeable(l: Layout, blocks: seq<nat>) {
    Different(blocks) && forall b :: b in blocks ==> LiveAt(l, b)
  }

  lemma FreeablePrefix(l: Layout, blocks: seq<nat>, n: nat)
    requires Freeable(l, blocks) && n < |blocks|
    ensures Freeable(l, blocks[..n]) && blocks[n] !in blocks[..n] && LiveAt(l, blocks[n])
    ensures forall b :: b in blocks[..n + 1] <==> b in blocks[..n] || b == blocks[n]
  {
    assert blocks[..n + 1] == blocks[..n] + [blocks[n]];
    assert blocks[n] in blocks;
    assert forall b :: b in blocks[..n] ==> b in blocks;
  }

  /** Of s's allocated blocks, t holds those not freed, and no others. */
  ghost predicate Freed(s: State, t: State, blocks: seq<nat>) {
    && t.Inv() && t.l.full == s.l.full
    && forall o: nat {:trigger Live(t.l, o)} {:trigger Live(s.l, o)} ::
      Live(t.l, o) == (Live(s.l, o) && o + HEADER !in blocks) && (Live(t.l, o) ==> t.l.tiles[o] == s.l.tiles[o])
  }

  /** Frees the blocks one after the other. */
  ghost function ReleaseAll(s: State, blocks: seq<nat>): (t: State)
    requires s.Inv() && Freeable(s.l, blocks)
    ensures Freed(s, t, blocks)
    decreases |blocks|
  {
    hide State.Inv, Release, Freed, Freeable;
    if blocks == [] then FreedNone(s); s
    else
      var n := |blocks| - 1;
      FreeablePrefix(s.l, blocks, n);
      var t := ReleaseAll(s, blocks[..n]);
      FreedMore(s, t, blocks, n);
      Release(t, blocks[n])
  }

  lemma FreedNone(s: State)
    requires s.Inv()
    ensures Freed(s, s, [])
  {
  }

  lemma FreedMore(s: State, t: State, blocks: seq<nat>, n: nat)
    requires s.Inv() && n < |blocks| && Freeable(s.l, blocks) && Freed(s, t, blocks[..n])
    ensures t.Inv() && LiveAt(t.l, blocks[n]) && Freed(s, Release(t, blocks[n]), blocks[..n + 1])
    ensures n + 1 == |blocks| ==> blocks[..n + 1] == blocks
  {
    hide State.Inv, Release, Freeable;
    FreeablePrefix(s.l, blocks, n);
    assert Live(s.l, blocks[n] - HEADER);
    ReleaseIsOk(t, blocks[n]);
    var u := Release(t, blocks[n]);
    forall o: nat
      ensures Live(u.l, o) == (Live(s.l, o) && o + HEADER !in blocks[..n + 1])
      && (Live(u.l, o) ==> u.l.tiles[o] == s.l.tiles[o]) {
      assert Live(t.l, o) == (Live(s.l, o) && o + HEADER !in blocks[..n]);
    }
  }

  /** Every allocated block but the freed ones has its contents. */
  ghost predicate KeptBut(m: seq<byte>, r: seq<byte>, l: Layout, freed: seq<nat>) {
    |r| == |m| && forall o: nat {:trigger Live(l, o)} ::
      Live(l, o) && o + HEADER !in freed
      ==> Same(m, r, o + HEADER, l.End(o))
  }

  /** Freeing one more block. */
  lemma ReleasedOne(s: State, t: State, u: State, blocks: seq<nat>, k: nat, m0: seq<byte>, m: seq<byte>, r: seq<byte>)
    requires s.Inv() && Freeable(s.l, blocks) && k < |blocks| && |m0| == s.l.full
    requires Freeable(s.l, blocks[..k]) && t == ReleaseAll(s, blocks[..k]) && LiveAt(t.l, blocks[k])
    requires u == Release(t, blocks[k])
    requires KeptBut(m0, m, s.l, blocks[..k]) && Kept(m, r, t.l, blocks[k] - HEADER) && |r| == |m|
    ensures Freeable(s.l, blocks[..k + 1]) && u == ReleaseAll(s, blocks[..k + 1])
    ensures KeptBut(m0, r, s.l, blocks[..k + 1])
  {
    hide State.Inv, Release, Freeable, Freed;
    FreeableFirst(s.l, blocks, k + 1);
    var c := blocks[..k + 1];
    assert c[..k] == blocks[..k] && c[k] == blocks[k];
    FreeablePrefix(s.l, blocks, k);
    KeptMore(s, t, blocks, k, m0, m, r);
  }

  lemma FreeableFirst(l: Layout, blocks: seq<nat>, n: nat)
    requires Freeable(l, blocks) && n <= |blocks|
    ensures Freeable(l, blocks[..n])
  {
    if n < |blocks| { FreeablePrefix(l, blocks, n); } else { assert blocks[..n] == blocks; }
  }

  lemma KeptMore(s: State, t: State, blocks: seq<nat>, k: nat, m0: seq<byte>, m: seq<byte>, r: seq<byte>)
    requires s.Inv() && Freeable(s.l, blocks) && k < |blocks| && |m0| == s.l.full && Freed(s, t, blocks[..k])
    requires KeptBut(m0, m, s.l, blocks[..k]) && Kept(m, r, t.l, blocks[k] - HEADER) && |r| == |m|
    ensures KeptBut(m0, r, s.l, blocks[..k + 1])
  {
    hide State.Inv, Freeable;
    FreeablePrefix(s.l, blocks, k);
    forall o: nat | Live(s.l, o) && o + HEADER !in blocks[..k + 1] ensures Same(m0, r, o + HEADER, s.l.End(o)) {
      assert Live(t.l, o) && Same(m, r, o + HEADER, t.l.End(o));
      LiveFits(s, o);
    }
  }

  lemma LiveFits(s: State, o: nat)
    requires s.Inv() && Live(s.l, o)
    ensures s.l.End(o) <= s.l.full
  {
    assert s.l.TileOk(o);
  }
}
