/**
How a chunked vector of messages lies in the buffer: its header, the block with its first chunk, the
directory of its further chunks and the chunks, each in an allocated block of its own.
*/
module VectorMemory {
  import opened Bytes
  import opened Layouts
  import opened HeapSpec
  import opened HeapMemory
  import opened PayloadBuffers
  import opened AllocatedBlocks
  import opened VectorChunks

  const BLOCK_HEADER: nat := 16
  const MAX_CHUNKS: nat := 31

  /**
  Where a vector is: the block its header is in, its header, and its own blocks.  `block` and `dir` are 0 if
  it has none; chunks[k - 1] is chunk k.
  */
  datatype Vec = Vec(home: nat, header: nat, stride: nat, block: nat, first: nat, dir: nat, chunks: seq<nat>) {
    function Capacity(): nat {
      if block == 0 then 0 else VectorChunks.End(first, |chunks|)
    }

    /** The vector's own blocks, in the order they are freed. */
    function Blocks(): seq<nat> {
      chunks + (if dir != 0 then [dir] else []) + (if block != 0 then [block] else [])
    }

    ghost predicate Owns(o: nat) {
      o + HEADER in Blocks()
    }

    function Base(k: nat): nat
      requires k <= |chunks|
    {
      if k == 0 then block + BLOCK_HEADER else chunks[k - 1]
    }

    /** The offset of element i, which is in chunk k. */
    function RunAt(k: nat, i: nat): nat
      requires k <= |chunks| && Begin(first, k) <= i
    {
      Base(k) + (i - Begin(first, k)) * stride
    }

    /** The offset of element i. */
    function At(i: nat): nat
      requires i < Capacity()
    {
      hide Pow2, ChunkOf;
      ChunkBelow(first, i, |chunks|);
      RunAt(ChunkOf(first, i), i)
    }
  }

  ghost predicate ChunkIn(l: Layout, v: Vec, k: nat) {
    1 <= k <= |v.chunks| ==> Room(l, v.chunks[k - 1], Begin(v.first, k) * v.stride)
  }

  ghost predicate Different(s: seq<nat>) {
    forall i, j {:trigger s[i], s[j]} :: 0 <= i < j < |s| ==> s[i] != s[j]
  }

  /** The vector's header is inside an allocated block. */
  ghost predicate AtHome(l: Layout, v: Vec) {
    Live(l, v.home) && v.home + HEADER <= v.header && v.header + 8 <= l.End(v.home)
  }

  /** The vector's blocks are allocated, big enough, and different. */
  ghost predicate Stored(l: Layout, v: Vec) {
    && AtHome(l, v) && 8 <= v.stride && v.stride % 8 == 0 && v.stride < WORD_LIMIT
    && (v.block == 0 ==> v.dir == 0)
    && (v.block != 0 ==> 0 < v.first && Room(l, v.block, BLOCK_HEADER + v.first * v.stride))
    && (v.dir == 0 <==> v.chunks == []) && |v.chunks| <= MAX_CHUNKS
    && (v.dir != 0 ==> Room(l, v.dir, 4 * (|v.chunks| + 1)))
    && (forall k: nat {:trigger ChunkIn(l, v, k)} :: ChunkIn(l, v, k))
    && Different(v.Blocks()) && !v.Owns(v.home)
  }

  ghost predicate DirWord(m: seq<byte>, v: Vec, k: nat) {
    1 <= k <= |v.chunks| ==> v.dir + 4 * k + 4 <= |m| && Get32(m, v.dir + 4 * k) == v.chunks[k - 1]
  }

  /** The words of the vector's header, block and directory. */
  ghost predicate Written(m: seq<byte>, v: Vec, count: nat, metadata: nat) {
    && v.header + 8 <= |m| && Get32(m, v.header) == count && Get32(m, v.header + 4) == v.block
    && (v.block != 0 ==>
      && v.block + BLOCK_HEADER <= |m| && Get32(m, v.block) == v.stride && Get32(m, v.block + 4) == v.first
      && Get32(m, v.block + 8) == metadata && Get32(m, v.block + 12) == v.dir)
    && (v.dir != 0 ==> v.dir + 4 <= |m| && Get32(m, v.dir) == |v.chunks|)
    && (forall k: nat {:trigger DirWord(m, v, k)} :: DirWord(m, v, k))
  }

  ghost predicate Holds(m: seq<byte>, l: Layout, v: Vec, count: nat, metadata: nat) {
    |m| == l.full && Stored(l, v) && Written(m, v, count, metadata) && count <= v.Capacity()
  }

  /** The tile that holds chunk k. */
  function ChunkTile(v: Vec, k: nat): int
    requires k <= |v.chunks|
  {
    (if k == 0 then v.block else v.chunks[k - 1]) - HEADER
  }

  lemma BlocksOf(v: Vec)
    ensures forall c ::
        c in v.Blocks()
        <==> c in v.chunks || (c == v.dir && v.dir != 0) || (c == v.block && v.block != 0)
  {
  }

  function ChunkSize(first: nat, k: nat): nat {
    ChunksMeet(first, k);
    VectorChunks.End(first, k) - Begin(first, k)
  }

  lemma ChunkSizes(first: nat, k: nat)
    ensures ChunkSize(first, k) == if k == 0 then first else Begin(first, k)
  {
    ChunksMeet(first, k);
    Unscaled(first);
  }

  /** Chunk k's elements lie in its block. */
  lemma ChunkInside(l: Layout, v: Vec, k: nat)
    requires l.Inv() && Stored(l, v) && v.block != 0 && k <= |v.chunks|
    ensures var o := ChunkTile(v, k);
      && 0 <= o && Live(l, o) && v.Owns(o) && o + HEADER + (if k == 0 then BLOCK_HEADER else 0) == v.Base(k)
      && v.Base(k) + ChunkSize(v.first, k) * v.stride <= l.End(o) <= l.full
  {
    hide Layout.Tiled, Layout.Listed, Pow2, ChunkSize, Begin, VectorChunks.End;
    BlocksOf(v);
    ChunkSizes(v.first, k);
    if k == 0 {
      RoomInside(l, v.block, BLOCK_HEADER + v.first * v.stride);
    } else {
      assert ChunkIn(l, v, k);
      RoomInside(l, v.chunks[k - 1], Begin(v.first, k) * v.stride);
    }
  }

  lemma Scaling(a: nat, n: nat, size: nat, s: nat)
    requires a + n <= size
    ensures a * s + n * s == (a + n) * s <= size * s
  {
  }

  /** A run of n elements from element i in chunk k lies in the chunk's block. */
  lemma RunInside(l: Layout, v: Vec, k: nat, i: nat, n: nat)
    requires l.Inv() && Stored(l, v) && v.block != 0 && k <= |v.chunks|
    requires Begin(v.first, k) <= i && i + n <= VectorChunks.End(v.first, k)
    ensures var o := ChunkTile(v, k); var p := v.RunAt(k, i);
      && 0 <= o && Live(l, o) && v.Owns(o) && o + HEADER <= v.Base(k) <= p && p + n * v.stride <= l.End(o) <= l.full
      && (k == 0 ==> o + HEADER + BLOCK_HEADER <= p)
  {
    hide Stored, Layout.Tiled, Layout.Listed, Pow2, Begin, VectorChunks.End, Vec.Owns, Live;
    ChunkInside(l, v, k);
    Scaling(i - Begin(v.first, k), n, ChunkSize(v.first, k), v.stride);
  }

  // ---- Elements ----

  /** The bytes of element i. */
  function Element(m: seq<byte>, v: Vec, i: nat): seq<byte>
    requires i < v.Capacity()
  {
    Slice(m, v.At(i), v.stride)
  }

  /** The first n elements. */
  function Elements(m: seq<byte>, v: Vec, n: nat): (r: seq<seq<byte>>)
    requires n <= v.Capacity()
    ensures |r| == n
  {
    seq(n, i requires 0 <= i < n => Element(m, v, i))
  }

  /** Where an element of a run is. */
  lemma InRun(v: Vec, k: nat, i: nat, j: nat)
    requires v.block != 0 && v.first > 0 && k <= |v.chunks|
    requires Begin(v.first, k) <= i <= j < VectorChunks.End(v.first, k)
    ensures j < v.Capacity() && v.At(j) == v.RunAt(k, i) + (j - i) * v.stride
  {
    hide Pow2, ChunkOf;
    EndMonotone(v.first, k, |v.chunks|);
    InOneChunk(v.first, k, ChunkOf(v.first, j), j);
    hide Begin, VectorChunks.End;
    Scaling(i - Begin(v.first, k), j - i, j - Begin(v.first, k), v.stride);
  }

  lemma ChunksApart(l: Layout, v: Vec, a: nat, b: nat)
    requires l.Inv() && Stored(l, v) && v.block != 0 && a <= |v.chunks| && b <= |v.chunks| && a != b
    ensures ChunkTile(v, a) != ChunkTile(v, b)
  {
    var s := v.Blocks();
    assert s[|s| - 1] == v.block;
    assert forall k :: 0 <= k < |v.chunks| ==> s[k] == v.chunks[k];
  }

  /** An element outside a run does not touch it. */
  lemma RunApart(l: Layout, v: Vec, k: nat, a: nat, n: nat, i: nat)
    requires l.Inv() && Stored(l, v) && v.block != 0 && k <= |v.chunks|
    requires Begin(v.first, k) <= a && a + n <= VectorChunks.End(v.first, k)
    requires i < v.Capacity() && !(a <= i < a + n)
    ensures v.At(i) + v.stride <= v.RunAt(k, a) || v.RunAt(k, a) + n * v.stride <= v.At(i)
    ensures v.At(i) + v.stride <= l.full
  {
    hide Pow2, ChunkOf, Stored, Layout.Tiled, Layout.Listed, Live, Vec.Owns;
    var c := ChunkOf(v.first, i);
    ChunkBelow(v.first, i, |v.chunks|);
    StoredFirst(l, v);
    hide Begin, VectorChunks.End;
    RunInside(l, v, c, i, 1);
    RunInside(l, v, k, a, n);
    if c != k {
      ChunksApart(l, v, c, k);
      TilesApart(l, ChunkTile(v, c), ChunkTile(v, k));
    } else if i < a {
      Scaling(i - Begin(v.first, k), 1, a - Begin(v.first, k), v.stride);
    } else {
      Scaling(a - Begin(v.first, k), n, i - Begin(v.first, k), v.stride);
    }
  }

  lemma StoredFirst(l: Layout, v: Vec)
    requires Stored(l, v)
    ensures v.block != 0 ==> v.first > 0
    ensures 8 <= v.stride && AtHome(l, v)
  {
  }

  /** Writing to a run of elements changes no other element. */
  lemma RunKeepsOthers(m: seq<byte>, r: seq<byte>, l: Layout, v: Vec, k: nat, a: nat, n: nat, size: nat, i: nat)
    requires l.Inv() && Stored(l, v) && v.block != 0 && k <= |v.chunks| && |m| == |r| == l.full
    requires Begin(v.first, k) <= a && a + n <= VectorChunks.End(v.first, k)
    requires size == n * v.stride && OnlyIn(m, r, v.RunAt(k, a), v.RunAt(k, a) + size)
    requires i < v.Capacity() && !(a <= i < a + n)
    ensures Element(r, v, i) == Element(m, v, i)
  {
    RunApart(l, v, k, a, n, i);
  }

  /** Moving a run of n elements onto another replaces those, one by one. */
  lemma RunMoved(m: seq<byte>, r: seq<byte>, l: Layout, v: Vec, ka: nat, a: nat, kb: nat, b: nat, n: nat, size: nat,
        i: nat)
    requires l.Inv() && Stored(l, v) && v.block != 0 && ka <= |v.chunks| && kb <= |v.chunks| && |m| == |r| == l.full
    requires Begin(v.first, ka) <= a && a + n <= VectorChunks.End(v.first, ka)
    requires Begin(v.first, kb) <= b && b + n <= VectorChunks.End(v.first, kb)
    requires size == n * v.stride && v.RunAt(ka, a) + size <= |m| && v.RunAt(kb, b) + size <= |m|
    requires r == Move(m, v.RunAt(ka, a), v.RunAt(kb, b), size)
    requires i < v.Capacity() && b + n <= v.Capacity()
    ensures Element(r, v, i) == if a <= i < a + n then Element(m, v, b + (i - a)) else Element(m, v, i)
  {
    hide Move, Pow2, Stored, Vec.At, Vec.RunAt, Layout.Tiled, Layout.Listed, Begin, VectorChunks.End;
    StoredFirst(l, v);
    if a <= i < a + n {
      InRun(v, ka, a, i);
      InRun(v, kb, b, b + (i - a));
      Scaling(i - a, 1, n, v.stride);
      SliceMoved(m, r, v.RunAt(ka, a), v.RunAt(kb, b), size, (i - a) * v.stride, v.stride);
    } else {
      RunKeepsOthers(m, r, l, v, ka, a, n, size, i);
    }
  }

  lemma SliceMoved(m: seq<byte>, r: seq<byte>, dst: nat, src: nat, size: nat, d: nat, n: nat)
    requires dst + size <= |m| && src + size <= |m| && d + n <= size && r == Move(m, dst, src, size)
    ensures Slice(r, dst + d, n) == Slice(m, src + d, n)
  {
    hide Move;
    var y := Slice(r, dst + d, n);
    forall x | 0 <= x < n ensures y[x] == Slice(m, src + d, n)[x] {
      assert r[dst + d + x] == m[dst + d + x - dst + src];
    }
  }

  // ---- What writing leaves alone ----

  /** Block o, not one of the vector's own, is as it was, but for the vector's header if it holds that. */
  ghost predicate SparesBlock(m: seq<byte>, r: seq<byte>, l: Layout, g: Layout, v: Vec, o: nat) {
    Live(l, o) && !v.Owns(o) ==>
      && o in g.tiles && g.tiles[o] == l.tiles[o]
      && Same(m, r, o + HEADER, if o == v.home then v.header else l.End(o))
      && (o == v.home ==> Same(m, r, v.header + 8, l.End(o)))
  }

  /** Every allocated block but the vector's own is as it was, but for the vector's header. */
  ghost predicate Spares(m: seq<byte>, r: seq<byte>, l: Layout, g: Layout, v: Vec) {
    && |m| <= |r|
    && forall o: nat {:trigger SparesBlock(m, r, l, g, v, o)} :: SparesBlock(m, r, l, g, v, o)
  }

  lemma SparesSame(m: seq<byte>, l: Layout, v: Vec)
    ensures Spares(m, m, l, l, v)
  {
  }

  /** v's blocks and new ones may be w's. */
  ghost predicate Succeeds(l: Layout, v: Vec, w: Vec) {
    && w.home == v.home && w.header == v.header
    && forall o: nat {:trigger w.Owns(o)} :: w.Owns(o) ==> v.Owns(o) || !Live(l, o)
  }

  lemma SparesBoth(m: seq<byte>, m1: seq<byte>, r: seq<byte>, l: Layout, g: Layout, h: Layout, v: Vec, w: Vec)
    requires l.Inv() && |m| == l.full && Spares(m, m1, l, g, v) && Spares(m1, r, g, h, w) && Succeeds(l, v, w)
    ensures Spares(m, r, l, h, v)
  {
    forall o: nat ensures SparesBlock(m, r, l, h, v, o) {
      assert SparesBlock(m, m1, l, g, v, o) && SparesBlock(m1, r, g, h, w, o);
      if Live(l, o) { assert l.TileOk(o); }
    }
  }

  /** Bytes inside chunk k of the vector, past its block's words. */
  ghost predicate InChunkBytes(l: Layout, v: Vec, k: nat, lo: nat, hi: nat)
    requires k <= |v.chunks|
  {
    var o := ChunkTile(v, k);
    && 0 <= o && Live(l, o) && v.Owns(o) && o + HEADER <= lo <= hi <= l.End(o)
      && (k == 0 ==> o + HEADER + BLOCK_HEADER <= lo)
  }

  /** Writing to a run of elements changes no word of the vector and no other block. */
  lemma RunSpares(m: seq<byte>, r: seq<byte>, l: Layout, v: Vec, count: nat, metadata: nat, k: nat, a: nat, n: nat)
    requires l.Inv() && Holds(m, l, v, count, metadata) && v.block != 0 && k <= |v.chunks|
    requires Begin(v.first, k) <= a && a + n <= VectorChunks.End(v.first, k)
    requires OnlyIn(m, r, v.RunAt(k, a), v.RunAt(k, a) + n * v.stride)
    ensures Holds(r, l, v, count, metadata) && Spares(m, r, l, l, v)
  {
    hide Pow2, Begin, VectorChunks.End, Vec.RunAt, Layout.Tiled, Layout.Listed, Written, Stored, Spares;
    RunInside(l, v, k, a, n);
    StoredFirst(l, v);
    BytesSpare(m, r, l, v, k, v.RunAt(k, a), v.RunAt(k, a) + n * v.stride);
    WordsStay(m, r, l, v, count, metadata, k, v.RunAt(k, a), v.RunAt(k, a) + n * v.stride);
  }

  lemma BytesSpare(m: seq<byte>, r: seq<byte>, l: Layout, v: Vec, k: nat, lo: nat, hi: nat)
    requires l.Inv() && |m| == l.full && k <= |v.chunks| && OnlyIn(m, r, lo, hi) && InChunkBytes(l, v, k, lo, hi)
    requires AtHome(l, v)
    ensures Spares(m, r, l, l, v)
  {
    forall x: nat ensures SparesBlock(m, r, l, l, v, x) {
      if Live(l, x) && !v.Owns(x) { TilesApart(l, x, ChunkTile(v, k)); }
    }
  }

  lemma WordsStay(m: seq<byte>, r: seq<byte>, l: Layout, v: Vec, count: nat, metadata: nat, k: nat, lo: nat, hi: nat)
    requires l.Inv() && Holds(m, l, v, count, metadata) && v.block != 0 && k <= |v.chunks|
    requires OnlyIn(m, r, lo, hi) && InChunkBytes(l, v, k, lo, hi)
    ensures Written(r, v, count, metadata)
  {
    HeaderApart(l, v, k, lo, hi);
    BlockApart(l, v, k, lo, hi);
    if v.dir != 0 { DirectoryApart(l, v, k, lo, hi); }
    hide Pow2, Begin, VectorChunks.End, Layout.Tiled, Layout.Listed, Stored, InChunkBytes;
    forall j: nat ensures DirWord(r, v, j) { assert DirWord(m, v, j); }
  }

  lemma BlockRoom(l: Layout, v: Vec)
    requires l.Inv() && Stored(l, v) && v.block != 0
    ensures LiveAt(l, v.block) && v.block + BLOCK_HEADER <= l.End(v.block - HEADER) <= l.full
  {
    hide Layout.Tiled, Layout.Listed, Stored, ChunkSize, Begin, VectorChunks.End;
    ChunkInside(l, v, 0);
  }

  lemma HeaderApart(l: Layout, v: Vec, k: nat, lo: nat, hi: nat)
    requires l.Inv() && Stored(l, v) && v.block != 0 && k <= |v.chunks| && InChunkBytes(l, v, k, lo, hi)
    ensures v.header + 8 <= lo || hi <= v.header
  {
    TilesApart(l, v.home, ChunkTile(v, k));
  }

  lemma BlockApart(l: Layout, v: Vec, k: nat, lo: nat, hi: nat)
    requires l.Inv() && Stored(l, v) && v.block != 0 && k <= |v.chunks| && InChunkBytes(l, v, k, lo, hi)
    ensures v.block + BLOCK_HEADER <= lo || hi <= v.block
  {
    BlockRoom(l, v);
    hide Pow2, Begin, VectorChunks.End, Layout.Tiled, Layout.Listed, Stored;
    if k > 0 { ChunksApart(l, v, 0, k); TilesApart(l, v.block - HEADER, ChunkTile(v, k)); }
  }

  lemma DirectoryApart(l: Layout, v: Vec, k: nat, lo: nat, hi: nat)
    requires l.Inv() && Stored(l, v) && v.block != 0 && k <= |v.chunks| && InChunkBytes(l, v, k, lo, hi) && v.dir != 0
    ensures v.dir + 4 * (|v.chunks| + 1) <= lo || hi <= v.dir
  {
    RoomInside(l, v.dir, 4 * (|v.chunks| + 1));
    DirApart(l, v, k);
    TilesApart(l, v.dir - HEADER, ChunkTile(v, k));
  }

  lemma DirApart(l: Layout, v: Vec, k: nat)
    requires l.Inv() && Stored(l, v) && v.block != 0 && k <= |v.chunks| && v.dir != 0
    ensures ChunkTile(v, k) != v.dir - HEADER
  {
    var s := v.Blocks();
    assert s[|v.chunks|] == v.dir && s[|v.chunks| + 1] == v.block;
    assert k > 0 ==> s[k - 1] == v.chunks[k - 1];
  }

  /** Where the vector's own blocks are as they were, so are its elements. */
  lemma ElementsKept(m: seq<byte>, r: seq<byte>, l: Layout, v: Vec, n: nat)
    requires l.Inv() && Stored(l, v) && |m| == l.full <= |r| && n <= v.Capacity()
    requires forall o: nat :: Live(l, o) && v.Owns(o) ==> Same(m, r, o + HEADER, l.End(o))
    ensures Elements(r, v, n) == Elements(m, v, n)
  {
    forall i | 0 <= i < n ensures Element(r, v, i) == Element(m, v, i) {
      ElementKept(m, r, l, v, i);
    }
  }

  lemma ElementKept(m: seq<byte>, r: seq<byte>, l: Layout, v: Vec, i: nat)
    requires l.Inv() && Stored(l, v) && |m| == l.full <= |r| && i < v.Capacity()
    requires forall o: nat :: Live(l, o) && v.Owns(o) ==> Same(m, r, o + HEADER, l.End(o))
    ensures Element(r, v, i) == Element(m, v, i)
  {
    hide Pow2, Layout.Tiled, Layout.Listed, ChunkOf;
    StoredFirst(l, v);
    var k := ChunkOf(v.first, i);
    ChunkBelow(v.first, i, |v.chunks|);
    RunInside(l, v, k, i, 1);
    hide Begin, VectorChunks.End, Vec.Owns, Stored, Vec.RunAt;
    assert Same(m, r, ChunkTile(v, k) + HEADER, l.End(ChunkTile(v, k)));
  }

  /** The element that has nothing set but its metadata. */
  function Empty(stride: nat, metadata: word): (r: seq<byte>)
    requires stride >= 4
    ensures |r| == stride && Get32(r, 0) == metadata && forall i :: 4 <= i < stride ==> r[i] == 0
  {
    Put32(seq(stride, _ => 0), 0, metadata)
  }

  // ---- Writing the header ----

  /** Writing the number of elements. */
  lemma CountWritten(m: seq<byte>, r: seq<byte>, head: nat, heads: seq<nat>, l: Layout, v: Vec, count: nat,
        metadata: nat, n: nat)
    requires l.Inv() && Agrees(m, head, heads, l, NONE) && Holds(m, l, v, count, metadata)
    requires n <= v.Capacity() && OnlyIn(m, r, v.header, v.header + 4) && Get32(r, v.header) == n
    ensures Agrees(r, head, heads, l, NONE) && Holds(r, l, v, n, metadata) && Spares(m, r, l, l, v)
    ensures Elements(r, v, v.Capacity()) == Elements(m, v, v.Capacity())
  {
    hide Pow2, Layout.Tiled, Layout.Listed, Agrees, Spares, Written;
    WriteAgrees(m, r, head, heads, l, NONE, v.home, v.header, v.header + 4);
    HomeSpares(m, r, l, v);
    forall o: nat | Live(l, o) && v.Owns(o) ensures Same(m, r, o + HEADER, l.End(o)) { TilesApart(l, v.home, o); }
    ElementsKept(m, r, l, v, v.Capacity());
    CountStays(m, r, l, v, count, metadata, n);
  }

  lemma HomeSpares(m: seq<byte>, r: seq<byte>, l: Layout, v: Vec)
    requires l.Inv() && |m| == l.full && AtHome(l, v) && OnlyIn(m, r, v.header, v.header + 8)
    ensures Spares(m, r, l, l, v)
  {
    forall x: nat ensures SparesBlock(m, r, l, l, v, x) {
      if Live(l, x) && x != v.home { TilesApart(l, x, v.home); }
    }
  }

  lemma CountStays(m: seq<byte>, r: seq<byte>, l: Layout, v: Vec, count: nat, metadata: nat, n: nat)
    requires l.Inv() && Holds(m, l, v, count, metadata) && OnlyIn(m, r, v.header, v.header + 4)
    requires Get32(r, v.header) == n
    ensures Written(r, v, n, metadata)
  {
    OwnApart(l, v);
    hide Pow2, Layout.Tiled, Layout.Listed, Stored, Vec.Owns;
    forall j: nat ensures DirWord(r, v, j) { assert DirWord(m, v, j); }
  }

  /** The words of the vector's block and directory are not those of its header. */
  lemma OwnApart(l: Layout, v: Vec)
    requires l.Inv() && Stored(l, v)
    ensures v.block != 0 ==> v.header + 8 <= v.block || v.block + BLOCK_HEADER <= v.header
    ensures v.dir != 0 ==> v.header + 8 <= v.dir || v.dir + 4 * (|v.chunks| + 1) <= v.header
  {
    hide Pow2, Layout.Tiled, Layout.Listed;
    BlocksOf(v);
    if v.block != 0 {
      BlockRoom(l, v);
      TilesApart(l, v.home, v.block - HEADER);
    }
    if v.dir != 0 {
      RoomInside(l, v.dir, 4 * (|v.chunks| + 1));
      TilesApart(l, v.home, v.dir - HEADER);
    }
  }
}
