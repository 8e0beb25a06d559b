/**
What becomes of the heap and of a chunked vector's storage when the vector grows, as functions of both: which
blocks it gets, where, and whether there is space at all.
*/
module VectorOutcomes {
  import opened Bytes
  import opened Layouts
  import opened HeapSpec
  import opened PayloadBuffers
  import opened AllocatedBlocks
  import opened VectorChunks
  import opened VectorMemory
  import opened VectorGrowth

  /** The storage there was room for, all there was if that was not enough, or the end of the process. */
  datatype Growth = Grown(s: State, v: Vec) | Full(s: State, v: Vec) | Ended {
    /** Grown or not, the vector is stored in a heap that keeps its invariant. */
    ghost predicate Ok() {
      !Ended? ==> s.Inv() && Stored(s.l, v)
    }
  }

  /** What a method that grows a vector reports and leaves behind. */
  ghost predicate Yields(r: Growth, ok: bool, alive: bool, s: State, v: Vec) {
    match r
    case Grown(t, w) => alive && ok && s == t && v == w
    case Full(t, w) => alive && !ok && s == t && v == w
    case Ended => !alive
  }

  /** The bytes of a block whose chunk holds `first` elements. */
  function BlockBytes(first: nat, stride: nat): nat {
    BLOCK_HEADER + first * stride
  }

  /** The bytes of chunk k. */
  function ChunkBytes(first: nat, k: nat, stride: nat): nat {
    Begin(first, k) * stride
  }

  // ---- Storage stays stored ----

  lemma KeepsRoom(l: Layout, g: Layout, but: int, p: nat, n: nat)
    requires Keeps(l, g, but) && Room(l, p, n) && p - HEADER != but
    ensures Room(g, p, n)
  {
    assert Live(l, p - HEADER);
  }

  lemma KeepsStored(l: Layout, g: Layout, v: Vec)
    requires Keeps(l, g, -1) && Stored(l, v)
    ensures Stored(g, v)
  {
    hide Begin, Pow2, Keeps;
    KeepsHome(l, g, -1, v);
    if v.block != 0 { KeepsRoom(l, g, -1, v.block, BlockBytes(v.first, v.stride)); }
    if v.dir != 0 { KeepsRoom(l, g, -1, v.dir, 4 * (|v.chunks| + 1)); }
    forall k: nat ensures ChunkIn(g, v, k) {
      assert ChunkIn(l, v, k);
      if 1 <= k <= |v.chunks| { KeepsRoom(l, g, -1, v.chunks[k - 1], ChunkBytes(v.first, k, v.stride)); }
    }
  }

  lemma KeepsHome(l: Layout, g: Layout, but: int, v: Vec)
    requires Keeps(l, g, but) && AtHome(l, v) && v.home != but
    ensures AtHome(g, v)
  {
    assert Live(l, v.home);
  }

  lemma StartStored(l: Layout, g: Layout, v: Vec, p: nat, first: nat)
    requires l.Inv() && g.Inv() && Keeps(l, g, -1) && Stored(l, v) && v.block == 0 && 0 < first
    requires Room(g, p, BlockBytes(first, v.stride)) && !LiveAt(l, p)
    ensures Stored(g, v.(block := p, first := first))
  {
    KeepsStored(l, g, v);
    StartedStored(g, v, v.(block := p, first := first));
  }

  lemma WithChunkStored(l: Layout, g: Layout, v: Vec, c: nat, q: nat)
    requires l.Inv() && Stored(l, v) && v.block != 0 && |v.chunks| < MAX_CHUNKS && Keeps(l, g, DirTile(v))
    requires Room(l, c, ChunkBytes(v.first, |v.chunks| + 1, v.stride)) && !v.Owns(c - HEADER) && c - HEADER != v.home
    requires q != 0 && Room(g, q, 4 * (|v.chunks| + 2)) && (q == v.dir || !LiveAt(l, q))
    ensures Stored(g, WithChunk(v, c, q))
  {
    hide Begin, Pow2, Keeps, Layout.Tiled, Layout.Listed, Different, Vec.Blocks;
    var w := WithChunk(v, c, q);
    StillDifferent(l, v, c, q);
    NotDirectory(l, v, c);
    KeepsHome(l, g, DirTile(v), v);
    KeepsRoom(l, g, DirTile(v), c, ChunkBytes(v.first, |v.chunks| + 1, v.stride));
    if v.dir != 0 { DirApart(l, v, 0); }
    KeepsRoom(l, g, DirTile(v), v.block, BlockBytes(v.first, v.stride));
    forall k: nat ensures ChunkIn(g, w, k) {
      assert ChunkIn(l, v, k);
      if 1 <= k <= |v.chunks| {
        if v.dir != 0 { DirApart(l, v, k); }
        KeepsRoom(l, g, DirTile(v), v.chunks[k - 1], ChunkBytes(v.first, k, v.stride));
      }
    }
  }

  lemma NotDirectory(l: Layout, v: Vec, c: nat)
    requires Stored(l, v) && LiveAt(l, c) && !v.Owns(c - HEADER)
    ensures DirTile(v) != c - HEADER && DirTile(v) != v.home
  {
    BlocksOf(v);
  }

  // ---- Growing ----

  /** The first chunk's block, for `first` elements. */
  ghost function FirstChunk(s: State, v: Vec, first: nat, cfg: Config): (r: Growth)
    requires s.Inv() && Stored(s.l, v) && v.block == 0 && 0 < first
    ensures r.Ok() && (r.Grown? ==> r.v.block != 0 && r.v.chunks == [])
  {
    hide State.Inv, Stored, Allocation, Keeps, BlockBytes;
    var bytes := BlockBytes(first, v.stride);
    if bytes >= WORD_LIMIT then Full(s, v)
    else
      FirstChunkOk(s, v, first, cfg);
      match Allocation(s, bytes, true, cfg, true)
      case Block(p, t) => Grown(t, v.(block := p, first := first))
      case Null(t) => Full(t, v)
      case Aborted => Ended
  }

  lemma FirstChunkOk(s: State, v: Vec, first: nat, cfg: Config)
    requires s.Inv() && Stored(s.l, v) && v.block == 0 && 0 < first && BlockBytes(first, v.stride) < WORD_LIMIT
    ensures var r := Allocation(s, BlockBytes(first, v.stride), true, cfg, true);
      && (r.Block? ==> r.p != 0 && r.s.Inv() && Stored(r.s.l, v.(block := r.p, first := first)))
      && (r.Null? ==> r.s.Inv() && Stored(r.s.l, v))
    ensures v.chunks == []
  {
    hide Allocation, Layout.Tiled, Layout.Listed, Keeps, Align8, Stored, BlockBytes;
    StrideIs(s.l, v);
    BlockBytesFit(first, v.stride);
    var bytes := BlockBytes(first, v.stride);
    AllocationIsOk(s, bytes, true, cfg, true);
    var r := Allocation(s, bytes, true, cfg, true);
    if r.Block? {
      NewRoom(s, r, bytes);
      StartStored(s.l, r.s.l, v, r.p, first);
    } else if r.Null? {
      KeepsStored(s.l, r.s.l, v);
    }
  }

  lemma StrideIs(l: Layout, v: Vec)
    requires Stored(l, v)
    ensures 8 <= v.stride < WORD_LIMIT && v.stride % 8 == 0 && |v.chunks| <= MAX_CHUNKS
    ensures (v.block == 0 ==> v.chunks == [])
    ensures v.block != 0 ==> 0 < v.first
    ensures v.dir != 0 ==> LiveAt(l, v.dir)
    ensures v.dir == 0 ==> v.chunks == []
  {
  }

  lemma BlockBytesFit(first: nat, stride: nat)
    requires stride % 8 == 0
    ensures 0 < BlockBytes(first, stride)
    ensures (BlockBytes(first, stride) < WORD_LIMIT ==> BlockBytes(first, stride) <= MAX_REQUEST)
  {
    assert first * stride == 8 * (first * (stride / 8));
  }

  lemma NewRoom(s: State, r: Outcome, n: nat)
    requires AllocationOk(s, r, n) && r.Block? && n <= MAX_REQUEST
    ensures Room(r.s.l, r.p, n) && !LiveAt(s.l, r.p)
  {
    Align8Covers(n);
    hide Layout.Tiled, Layout.Listed, Align8;
  }

  /** The directory for one more chunk. */
  ghost function DirectoryFor(s: State, v: Vec, cfg: Config): Outcome
    requires s.Inv() && (v.dir != 0 ==> LiveAt(s.l, v.dir))
  {
    var bytes := 4 * (|v.chunks| + 2);
    if v.dir == 0 then Allocation(s, bytes, true, cfg, true) else Reallocation(s, v.dir, bytes, true, cfg)
  }

  /** One more chunk, at c, entered in the directory; it is freed again if that cannot grow. */
  ghost function ListedChunk(s: State, v: Vec, c: nat, cfg: Config): (r: Growth)
    requires s.Inv() && Stored(s.l, v) && v.block != 0 && |v.chunks| < MAX_CHUNKS
    requires Room(s.l, c, ChunkBytes(v.first, |v.chunks| + 1, v.stride)) && !v.Owns(c - HEADER) && c - HEADER != v.home
    ensures r.Ok() && (r.Grown? ==> r.v.block != 0 && |r.v.chunks| == |v.chunks| + 1 && Lengthened(v, r.v))
    ensures r.Full? ==> r.v == v
  {
    hide State.Inv, Stored, Allocation, Reallocation, Keeps, Room, Release, DirectoryFor, ChunkBytes;
    StrideIs(s.l, v);
    ListedChunkOk(s, v, c, cfg);
    match DirectoryFor(s, v, cfg)
    case Block(q, t) => Grown(t, WithChunk(v, c, q))
    case Null(t) => Full(Release(t, c), v)
    case Aborted => Ended
  }

  /** w has v's storage and more. */
  ghost predicate Lengthened(v: Vec, w: Vec) {
    && w.home == v.home && w.header == v.header && w.stride == v.stride && w.block == v.block && w.first == v.first
      && v.chunks <= w.chunks
  }

  lemma ListedChunkOk(s: State, v: Vec, c: nat, cfg: Config)
    requires s.Inv() && Stored(s.l, v) && v.block != 0 && |v.chunks| < MAX_CHUNKS && (v.dir != 0 ==> LiveAt(s.l, v.dir))
    requires Room(s.l, c, ChunkBytes(v.first, |v.chunks| + 1, v.stride)) && !v.Owns(c - HEADER) && c - HEADER != v.home
    ensures var r := DirectoryFor(s, v, cfg);
      && (r.Block? ==> r.s.Inv() && Stored(r.s.l, WithChunk(v, c, r.p)))
      && (r.Null? ==> r.s.Inv() && LiveAt(r.s.l, c) && Release(r.s, c).Inv() && Stored(Release(r.s, c).l, v))
  {
    hide State.Inv, Stored, Allocation, Reallocation, Keeps, Release, Vec.Owns, ChunkBytes;
    var bytes := 4 * (|v.chunks| + 2);
    var r := DirectoryFor(s, v, cfg);
    StrideIs(s.l, v);
    DirectoryIsOk(s, v, cfg);
    if r.Block? {
      LayoutInv(s);
      WithChunkStored(s.l, r.s.l, v, c, r.p);
    } else if r.Null? {
      KeepsStored(s.l, r.s.l, v);
      KeepsRoom(s.l, r.s.l, -1, c, ChunkBytes(v.first, |v.chunks| + 1, v.stride));
      ReleaseIsOk(r.s, c);
      KeepsStoredBut(r.s.l, Release(r.s, c).l, v, c - HEADER);
    }
  }

  lemma LayoutInv(s: State)
    requires s.Inv()
    ensures s.l.Inv()
  {
  }

  lemma DirectoryIsOk(s: State, v: Vec, cfg: Config)
    requires s.Inv() && Stored(s.l, v) && |v.chunks| < MAX_CHUNKS && (v.dir != 0 ==> LiveAt(s.l, v.dir))
    ensures var r := DirectoryFor(s, v, cfg);
      && (r.Block? ==> r.s.Inv() && r.p != 0 && Keeps(s.l, r.s.l, DirTile(v)) && Room(r.s.l, r.p, 4 * (|v.chunks| + 2)))
      && (r.Block? ==> r.p == v.dir || !LiveAt(s.l, r.p))
      && (r.Null? ==> r.s.Inv() && Keeps(s.l, r.s.l, -1))
  {
    hide State.Inv, Stored, Allocation, Reallocation, Keeps, Align8;
    var bytes := 4 * (|v.chunks| + 2);
    Align8Covers(bytes);
    if v.dir == 0 {
      AllocationIsOk(s, bytes, true, cfg, true);
      var r := Allocation(s, bytes, true, cfg, true);
      if r.Block? { NewRoom(s, r, bytes); }
    } else {
      ReallocationIsOk(s, v.dir, bytes, true, cfg);
    }
  }

  /** Blocks of its own and its home are all a vector needs. */
  lemma KeepsStoredBut(l: Layout, g: Layout, v: Vec, but: nat)
    requires Keeps(l, g, but) && Stored(l, v) && !v.Owns(but) && but != v.home
    ensures Stored(g, v)
  {
    hide Begin, Pow2, Keeps;
    BlocksOf(v);
    KeepsHome(l, g, but, v);
    if v.block != 0 { KeepsRoom(l, g, but, v.block, BlockBytes(v.first, v.stride)); }
    if v.dir != 0 { KeepsRoom(l, g, but, v.dir, 4 * (|v.chunks| + 1)); }
    forall k: nat ensures ChunkIn(g, v, k) {
      assert ChunkIn(l, v, k);
      if 1 <= k <= |v.chunks| { KeepsRoom(l, g, but, v.chunks[k - 1], ChunkBytes(v.first, k, v.stride)); }
    }
  }

  /** One more chunk, which doubles the capacity. */
  ghost function NextChunk(s: State, v: Vec, cfg: Config): (r: Growth)
    requires s.Inv() && Stored(s.l, v) && v.block != 0
    ensures r.Ok() && (r.Grown? ==> r.v.block != 0 && |r.v.chunks| == |v.chunks| + 1 && Lengthened(v, r.v))
    ensures r.Full? ==> r.v == v
  {
    hide State.Inv, Stored, Allocation, Keeps, Room, ChunkBytes, Vec.Owns;
    var bytes := ChunkBytes(v.first, |v.chunks| + 1, v.stride);
    if |v.chunks| >= MAX_CHUNKS || bytes >= WORD_LIMIT then Full(s, v)
    else
      NextChunkOk(s, v, cfg);
      match Allocation(s, bytes, true, cfg, true)
      case Block(c, t) => ListedChunk(t, v, c, cfg)
      case Null(t) => Full(t, v)
      case Aborted => Ended
  }

  lemma NextChunkOk(s: State, v: Vec, cfg: Config)
    requires s.Inv() && Stored(s.l, v) && v.block != 0 && ChunkBytes(v.first, |v.chunks| + 1, v.stride) < WORD_LIMIT
    ensures var bytes := ChunkBytes(v.first, |v.chunks| + 1, v.stride); var r := Allocation(s, bytes, true, cfg, true);
      && (r.Block? ==>
        r.s.Inv() && Stored(r.s.l, v) && Room(r.s.l, r.p, bytes) && !v.Owns(r.p - HEADER)
        && r.p - HEADER != v.home)
      && (r.Null? ==> r.s.Inv() && Stored(r.s.l, v))
  {
    hide State.Inv, Stored, Allocation, Keeps, Align8, ChunkBytes, Vec.Owns;
    StrideIs(s.l, v);
    var bytes := ChunkBytes(v.first, |v.chunks| + 1, v.stride);
    ChunkBytesFit(v.first, |v.chunks| + 1, v.stride);
    AllocationIsOk(s, bytes, true, cfg, true);
    var r := Allocation(s, bytes, true, cfg, true);
    if r.Block? {
      NewRoom(s, r, bytes);
      KeepsStored(s.l, r.s.l, v);
      NewNotOwn(s.l, v, r.p);
    } else if r.Null? {
      KeepsStored(s.l, r.s.l, v);
    }
  }

  lemma NewNotOwn(l: Layout, v: Vec, p: nat)
    requires Stored(l, v) && !LiveAt(l, p) && p >= HEADER
    ensures !v.Owns(p - HEADER) && p - HEADER != v.home
  {
    AllLive(l, v);
  }

  lemma ChunkBytesFit(first: nat, k: nat, stride: nat)
    requires stride % 8 == 0
    ensures ChunkBytes(first, k, stride) < WORD_LIMIT ==> ChunkBytes(first, k, stride) <= MAX_REQUEST
  {
    hide Begin;
    assert ChunkBytes(first, k, stride) == 8 * (Begin(first, k) * (stride / 8));
  }

  /** What the directory's block, or none, makes of a chunk. */
  lemma ListedChunkIs(s: State, v: Vec, c: nat, cfg: Config, q: nat, alive: bool, t: State)
    requires s.Inv() && Stored(s.l, v) && v.block != 0 && |v.chunks| < MAX_CHUNKS && (v.dir != 0 ==> LiveAt(s.l, v.dir))
    requires Room(s.l, c, ChunkBytes(v.first, |v.chunks| + 1, v.stride)) && !v.Owns(c - HEADER) && c - HEADER != v.home
    requires Gives(DirectoryFor(s, v, cfg), q, alive, t)
    ensures !alive ==> ListedChunk(s, v, c, cfg) == Ended
    ensures alive && q == 0 ==> t.Inv() && LiveAt(t.l, c) && ListedChunk(s, v, c, cfg) == Full(Release(t, c), v)
    ensures alive && q != 0 ==> ListedChunk(s, v, c, cfg) == Grown(t, WithChunk(v, c, q))
  {
    hide State.Inv, Stored, DirectoryFor, Release, Room, Vec.Owns, ChunkBytes, Keeps;
    DirectoryIsOk(s, v, cfg);
    ListedChunkOk(s, v, c, cfg);
  }

  /** What a chunk's block, or none, makes of a vector. */
  lemma NextChunkIs(s: State, v: Vec, cfg: Config, c: nat, alive: bool, t: State)
    requires s.Inv() && Stored(s.l, v) && v.block != 0 && |v.chunks| < MAX_CHUNKS
    requires ChunkBytes(v.first, |v.chunks| + 1, v.stride) < WORD_LIMIT
    requires Gives(Allocation(s, ChunkBytes(v.first, |v.chunks| + 1, v.stride), true, cfg, true), c, alive, t)
    ensures !alive ==> NextChunk(s, v, cfg) == Ended
    ensures alive && c == 0 ==> NextChunk(s, v, cfg) == Full(t, v)
    ensures alive && c != 0 ==> t.Inv() && Stored(t.l, v) && c >= HEADER && !v.Owns(c - HEADER) && c - HEADER != v.home
    ensures alive && c != 0 ==> Room(t.l, c, ChunkBytes(v.first, |v.chunks| + 1, v.stride))
    ensures alive && c != 0 ==> NextChunk(s, v, cfg) == ListedChunk(t, v, c, cfg)
  {
    hide State.Inv, Stored, Allocation, Vec.Owns, ChunkBytes, ListedChunk;
    NextChunkOk(s, v, cfg);
  }

  /** Chunks until there is room for n elements. */
  ghost function MoreChunks(s: State, v: Vec, n: nat, cfg: Config): (r: Growth)
    requires s.Inv() && Stored(s.l, v) && v.block != 0
    ensures r.Ok() && (!r.Ended? ==> r.v.block != 0 && Lengthened(v, r.v)) && (r.Grown? ==> n <= r.v.Capacity())
    decreases MAX_CHUNKS + 1 - |v.chunks|
  {
    hide State.Inv, Stored, NextChunk, Vec.Capacity;
    StrideIs(s.l, v);
    if n <= v.Capacity() then Grown(s, v)
    else
      match NextChunk(s, v, cfg)
      case Grown(t, w) => StrideIs(t.l, w); MoreChunks(t, w, n, cfg)
      case Full(t, w) => Full(t, w)
      case Ended => Ended
  }

  /** Storage for at least n elements, in a first chunk of `first` if there is none yet. */
  ghost function Growing(s: State, v: Vec, n: nat, first: nat, cfg: Config): (r: Growth)
    requires s.Inv() && Stored(s.l, v) && 0 < first
    ensures r.Ok() && (r.Grown? ==> r.v.block != 0 && n <= r.v.Capacity())
  {
    hide State.Inv, Stored, FirstChunk, MoreChunks, Vec.Capacity;
    if v.block != 0 then MoreChunks(s, v, n, cfg)
    else
      match FirstChunk(s, v, first, cfg)
      case Grown(t, w) => MoreChunks(t, w, n, cfg)
      case Full(t, w) => Full(t, w)
      case Ended => Ended
  }

  /** The storage there already is is enough. */
  lemma RoomAlready(s: State, v: Vec, n: nat, first: nat, cfg: Config)
    requires s.Inv() && Stored(s.l, v) && 0 < first && v.block != 0 && n <= v.Capacity()
    ensures Growing(s, v, n, first, cfg) == Grown(s, v)
  {
    hide State.Inv, Stored, NextChunk, FirstChunk, Vec.Capacity;
  }

  /** The most elements that fit 64 bytes, but at least one and at most 16. */
  ghost predicate FillsFirst(first: nat, stride: nat) {
    && 1 <= first <= 16
    && (first == 1 || first * stride <= 64)
    && (first == 16 || (first + 1) * stride > 64)
  }

  /** How many elements the first chunk of a vector that was not reserved holds. */
  function DefaultFirst(stride: nat): (first: nat)
    requires 0 < stride
    ensures FillsFirst(first, stride)
  {
    assert 64 / stride * stride <= 64 < (64 / stride + 1) * stride;
    if 64 / stride < 1 then 1 else if 64 / stride > 16 then 16 else 64 / stride
  }

  /** Storage for the element that follows `count` others. */
  ghost function Placing(s: State, v: Vec, count: nat, cfg: Config): (r: Growth)
    requires s.Inv() && Stored(s.l, v)
    ensures r.Ok()
  {
    hide State.Inv, Stored, Growing, DefaultFirst, Vec.Capacity;
    StrideIs(s.l, v);
    if v.block != 0 && count < v.first then Grown(s, v) else Growing(s, v, count + 1, DefaultFirst(v.stride), cfg)
  }

  /** A vector that had no block and has one has a first chunk of the default size. */
  lemma PlacedFirst(s: State, v: Vec, count: nat, cfg: Config)
    requires s.Inv() && Stored(s.l, v)
    ensures var r := Placing(s, v, count, cfg);
      v.block == 0 && !r.Ended? && r.v.block != 0 ==> FillsFirst(r.v.first, v.stride)
  {
    hide State.Inv, Stored, NextChunk, MoreChunks, Allocation, Vec.Capacity, FillsFirst;
    StrideIs(s.l, v);
  }

  /** Storage for n elements, if there are to be any. */
  ghost function Reserving(s: State, v: Vec, n: nat, cfg: Config): (r: Growth)
    requires s.Inv() && Stored(s.l, v)
    ensures r.Ok()
  {
    hide State.Inv, Stored, Growing;
    if n == 0 then Grown(s, v) else Growing(s, v, n, n, cfg)
  }

  /** A vector that had no block and has one has all it was asked for in its first chunk. */
  lemma ReservedFirst(s: State, v: Vec, n: nat, cfg: Config)
    requires s.Inv() && Stored(s.l, v)
    ensures var r := Reserving(s, v, n, cfg); v.block == 0 && !r.Ended? && r.v.block != 0 ==> r.v.first == n
  {
    hide State.Inv, Stored, NextChunk, MoreChunks, Allocation, Vec.Capacity;
    StrideIs(s.l, v);
  }

  lemma ReservedAlready(s: State, v: Vec, n: nat, cfg: Config)
    requires s.Inv() && Stored(s.l, v) && v.block != 0 && n <= v.Capacity()
    ensures Reserving(s, v, n, cfg) == Grown(s, v)
  {
    hide State.Inv, Stored, Growing, Vec.Capacity;
    if n > 0 { RoomAlready(s, v, n, n, cfg); }
  }

  /** Storage for n elements that follow `count` others. */
  ghost function Extending(s: State, v: Vec, count: nat, n: nat, cfg: Config): (r: Growth)
    requires s.Inv() && Stored(s.l, v)
    ensures r.Ok()
  {
    hide State.Inv, Stored, Reserving, Keeps;
    if n == 0 then Grown(s, v)
    else if count + n >= WORD_LIMIT then FailStored(s, v); Full(Fail(s), v)
    else Reserving(s, v, count + n, cfg)
  }

  lemma FailStored(s: State, v: Vec)
    requires s.Inv() && Stored(s.l, v)
    ensures Fail(s).Inv() && Stored(Fail(s).l, v)
  {
    hide Layout.Tiled, Layout.Listed, Stored, Keeps;
    FailInv(s);
    DropKeeps(s.l);
    KeepsStored(s.l, Fail(s).l, v);
  }

  /** The storage a vector has room in is left alone, however it is asked for. */
  lemma RoomLeft(s: State, v: Vec, count: nat, n: nat, cfg: Config)
    requires s.Inv() && Stored(s.l, v) && count + n <= v.Capacity() && count + n < WORD_LIMIT
    ensures Reserving(s, v, count + n, cfg) == Extending(s, v, count, n, cfg) == Grown(s, v)
  {
    hide State.Inv, Stored, Growing;
    if n > 0 {
      hide Vec.Capacity;
      RoomAlready(s, v, count + n, count + n, cfg);
    } else if count > 0 {
      hide Vec.Capacity;
      RoomAlready(s, v, count, count, cfg);
    }
  }

  lemma PlaceLeft(s: State, v: Vec, count: nat, cfg: Config)
    requires s.Inv() && Stored(s.l, v) && count < v.Capacity()
    ensures Placing(s, v, count, cfg) == Grown(s, v)
  {
    hide State.Inv, Stored, Growing, DefaultFirst;
    StrideIs(s.l, v);
    RoomAlready(s, v, count + 1, DefaultFirst(v.stride), cfg);
  }

  /** A buffer of fixed size is full at worst. */
  lemma FixedGrows(s: State, v: Vec, n: nat, first: nat, cfg: Config)
    requires s.Inv() && Stored(s.l, v) && 0 < first && !cfg.movable
    ensures !Growing(s, v, n, first, cfg).Ended?
  {
    hide State.Inv, Stored, Allocation, Vec.Capacity, BlockBytes, MoreChunks;
    StrideIs(s.l, v);
    if v.block != 0 {
      FixedGrowsMore(s, v, n, cfg);
    } else {
      FixedAllocates(s, BlockBytes(first, v.stride), cfg);
      var r := FirstChunk(s, v, first, cfg);
      if r.Grown? { FixedGrowsMore(r.s, r.v, n, cfg); }
    }
  }

  lemma FixedAllocates(s: State, n: nat, cfg: Config)
    requires s.Inv() && !cfg.movable
    ensures !Allocation(s, n, true, cfg, true).Aborted?
  {
    hide Layout.Tiled, Layout.Listed, Align8;
  }

  lemma FixedReallocates(s: State, p: nat, n: nat, cfg: Config)
    requires s.Inv() && LiveAt(s.l, p) && !cfg.movable
    ensures !Reallocation(s, p, n, true, cfg).Aborted?
  {
    hide Layout.Tiled, Layout.Listed, Align8, Allocation, CanStay;
    FixedAllocates(s, n, cfg);
    FixedAllocates(s, Align8(n), cfg);
  }

  lemma FixedNext(s: State, v: Vec, cfg: Config)
    requires s.Inv() && Stored(s.l, v) && v.block != 0 && !cfg.movable
    ensures !NextChunk(s, v, cfg).Ended?
  {
    hide State.Inv, Stored, Allocation, Reallocation, ChunkBytes, Vec.Owns, Release, Room;
    var bytes := ChunkBytes(v.first, |v.chunks| + 1, v.stride);
    FixedAllocates(s, bytes, cfg);
    if |v.chunks| < MAX_CHUNKS && bytes < WORD_LIMIT {
      NextChunkOk(s, v, cfg);
      var r := Allocation(s, bytes, true, cfg, true);
      if r.Block? {
        StrideIs(r.s.l, v);
        if v.dir == 0 {
          FixedAllocates(r.s, 4 * (|v.chunks| + 2), cfg);
        } else {
          FixedReallocates(r.s, v.dir, 4 * (|v.chunks| + 2), cfg);
        }
      }
    }
  }

  lemma {:induction false} FixedGrowsMore(s: State, v: Vec, n: nat, cfg: Config)
    requires s.Inv() && Stored(s.l, v) && v.block != 0 && !cfg.movable
    ensures !MoreChunks(s, v, n, cfg).Ended?
    decreases MAX_CHUNKS + 1 - |v.chunks|
  {
    hide State.Inv, Stored, NextChunk, Vec.Capacity;
    StrideIs(s.l, v);
    FixedNext(s, v, cfg);
    var r := NextChunk(s, v, cfg);
    if r.Grown? {
      StrideIs(r.s.l, r.v);
      FixedGrowsMore(r.s, r.v, n, cfg);
    }
  }

  // ---- The vector as a value ----

  /** The heap, where the vector is in it, and its elements. */
  datatype Value = Value(s: State, v: Vec, elements: seq<seq<byte>>) {
    ghost predicate Ok() {
      s.Inv() && Stored(s.l, v) && |elements| <= v.Capacity()
    }
  }

  /** The change made, or as much of it as there was space for, or the end of the process. */
  datatype Change = Done(x: Value) | NoSpace(x: Value) | Crash

  ghost function After(r: Growth, was: seq<seq<byte>>, now: seq<seq<byte>>): Change {
    match r
    case Grown(s, v) => Done(Value(s, v, now))
    case Full(s, v) => NoSpace(Value(s, v, was))
    case Ended => Crash
  }

  /** Appending e. */
  ghost function Adding(x: Value, e: seq<byte>, cfg: Config): Change
    requires x.s.Inv() && Stored(x.s.l, x.v)
  {
    After(Placing(x.s, x.v, |x.elements|, cfg), x.elements, x.elements + [e])
  }

  /** Appending the values all at once. */
  ghost function Appending(x: Value, values: seq<seq<byte>>, cfg: Config): Change
    requires x.s.Inv() && Stored(x.s.l, x.v)
  {
    After(Extending(x.s, x.v, |x.elements|, |values|, cfg), x.elements, x.elements + values)
  }

  /** Appending the values one by one. */
  ghost function AddingEach(x: Value, values: seq<seq<byte>>, cfg: Config): Change
    requires x.s.Inv() && Stored(x.s.l, x.v)
    decreases |values|
  {
    hide State.Inv, Stored, Placing;
    if values == [] then Done(x)
    else
      match Adding(x, values[0], cfg)
      case Done(y) => AddingEach(y, values[1..], cfg)
      case r => r
  }

  /**
  In storage that was reserved, appending n elements at once or one by one gives the same elements at the same
  offsets, and neither touches the heap.
  */
  lemma {:induction false} AppendIsAdds(x: Value, values: seq<seq<byte>>, cfg: Config)
    requires x.Ok() && |x.elements| + |values| <= x.v.Capacity() && |x.elements| + |values| < WORD_LIMIT
    ensures Appending(x, values, cfg) == AddingEach(x, values, cfg) == Done(x.(elements := x.elements + values))
    decreases |values|
  {
    hide State.Inv, Stored, Vec.Capacity, Placing, Extending;
    RoomLeft(x.s, x.v, |x.elements|, |values|, cfg);
    if values == [] {
      assert x.elements + values == x.elements;
    } else {
      PlaceLeft(x.s, x.v, |x.elements|, cfg);
      var y := x.(elements := x.elements + [values[0]]);
      AppendIsAdds(y, values[1..], cfg);
      assert x.elements + values == y.elements + values[1..];
    }
  }

  /** Reserving room for them first makes that so. */
  lemma ReservedAppendIsAdds(x: Value, values: seq<seq<byte>>, cfg: Config)
    requires x.Ok() && |x.elements| + |values| < WORD_LIMIT
    ensures var r := Reserving(x.s, x.v, |x.elements| + |values|, cfg);
      r.Grown? ==> var y := Value(r.s, r.v, x.elements);
        y.Ok()
        && Appending(y, values, cfg) == AddingEach(y, values, cfg) == Done(y.(elements := x.elements + values))
  {
    hide State.Inv, Stored, Vec.Capacity, Growing;
    var r := Reserving(x.s, x.v, |x.elements| + |values|, cfg);
    if r.Grown? { AppendIsAdds(Value(r.s, r.v, x.elements), values, cfg); }
  }

  // ---- Elements that are given blocks of their own ----

  /** An element whose word past its metadata leads to the block at q. */
  function Attached(e: seq<byte>, q: nat): (r: seq<byte>)
    requires |e| >= 8
    ensures |r| == |e|
  {
    Put32(e, 4, q % WORD_LIMIT)
  }

  /** Appending e for each size, in storage there is, and giving each element a block of its size at once. */
  ghost function Attaching(x: Value, e: seq<byte>, sizes: seq<nat>, cfg: Config): Change
    requires x.s.Inv() && |e| >= 8
    decreases |sizes|
  {
    hide State.Inv, Allocation;
    if sizes == [] then Done(x)
    else
      AllocationIsOk(x.s, sizes[0], true, cfg, true);
      match Allocation(x.s, sizes[0], true, cfg, true)
      case Block(q, t) => Attaching(Value(t, x.v, x.elements + [Attached(e, q)]), e, sizes[1..], cfg)
      case Null(t) => NoSpace(Value(t, x.v, x.elements + [e]))
      case Aborted => Crash
  }

  lemma AttachingOne(x: Value, e: seq<byte>, sizes: seq<nat>, cfg: Config)
    requires x.s.Inv() && |e| >= 8 && sizes != []
    ensures var r := Allocation(x.s, sizes[0], true, cfg, true);
      && (r.Aborted? ==> Attaching(x, e, sizes, cfg) == Crash)
      && (r.Null? ==> Attaching(x, e, sizes, cfg) == NoSpace(Value(r.s, x.v, x.elements + [e])))
      && (r.Block? ==>
        r.s.Inv()
        && Attaching(x, e, sizes, cfg)
           == Attaching(Value(r.s, x.v, x.elements + [Attached(e, r.p)]), e, sizes[1..], cfg))
  {
    hide State.Inv, Allocation;
    AllocationIsOk(x.s, sizes[0], true, cfg, true);
  }

  /** The same after making room for all of them. */
  ghost function AppendingAttached(x: Value, e: seq<byte>, sizes: seq<nat>, cfg: Config): Change
    requires x.s.Inv() && Stored(x.s.l, x.v) && |e| >= 8
  {
    match Extending(x.s, x.v, |x.elements|, |sizes|, cfg)
    case Grown(s, v) => Attaching(Value(s, v, x.elements), e, sizes, cfg)
    case Full(s, v) => NoSpace(Value(s, v, x.elements))
    case Ended => Crash
  }

  /** Adding elements one by one, each of which is given its block before the next. */
  ghost function AddingAttached(x: Value, e: seq<byte>, sizes: seq<nat>, cfg: Config): Change
    requires x.s.Inv() && Stored(x.s.l, x.v) && |e| >= 8
    decreases |sizes|
  {
    hide State.Inv, Stored, Placing, Allocation;
    if sizes == [] then Done(x)
    else
      match Adding(x, e, cfg)
      case Done(y) =>
        AllocationStored(y.s, y.v, sizes[0], cfg);
        (match Allocation(y.s, sizes[0], true, cfg, true)
         case Block(q, t) => AddingAttached(Value(t, y.v, x.elements + [Attached(e, q)]), e, sizes[1..], cfg)
         case Null(t) => NoSpace(Value(t, y.v, y.elements))
         case Aborted => Crash)
      case r => r
  }

  lemma AllocationStored(s: State, v: Vec, n: nat, cfg: Config)
    requires s.Inv() && Stored(s.l, v)
    ensures var r := Allocation(s, n, true, cfg, true); !r.Aborted? ==> r.s.Inv() && Stored(r.s.l, v)
  {
    hide State.Inv, Stored, Allocation, Keeps;
    AllocationIsOk(s, n, true, cfg, true);
    var r := Allocation(s, n, true, cfg, true);
    if !r.Aborted? { KeepsStored(s.l, r.s.l, v); }
  }

  /** In reserved storage, appending such elements at once or one by one is the same, however the buffer changes. */
  lemma {:induction false} AttachingIsAdding(x: Value, e: seq<byte>, sizes: seq<nat>, cfg: Config)
    requires x.Ok() && |x.elements| + |sizes| <= x.v.Capacity() && |x.elements| + |sizes| < WORD_LIMIT && |e| >= 8
    ensures AppendingAttached(x, e, sizes, cfg) == Attaching(x, e, sizes, cfg) == AddingAttached(x, e, sizes, cfg)
    decreases |sizes|
  {
    hide State.Inv, Stored, Vec.Capacity, Placing, Extending, Allocation, Attached;
    RoomLeft(x.s, x.v, |x.elements|, |sizes|, cfg);
    if sizes != [] {
      PlaceLeft(x.s, x.v, |x.elements|, cfg);
      AllocationStored(x.s, x.v, sizes[0], cfg);
      var r := Allocation(x.s, sizes[0], true, cfg, true);
      if r.Block? {
        AttachingIsAdding(Value(r.s, x.v, x.elements + [Attached(e, r.p)]), e, sizes[1..], cfg);
      }
    }
  }

  /** The elements there were stay in front, where they were. */
  lemma {:induction false} AttachingKeeps(x: Value, e: seq<byte>, sizes: seq<nat>, cfg: Config)
    requires x.s.Inv() && |e| >= 8
    ensures var r := Attaching(x, e, sizes, cfg);
      && (!r.Crash? ==> r.x.v == x.v && x.elements <= r.x.elements)
      && (r.Done? ==> |r.x.elements| == |x.elements| + |sizes|)
    decreases |sizes|
  {
    hide State.Inv, Allocation, Attached;
    if sizes != [] {
      AllocationIsOk(x.s, sizes[0], true, cfg, true);
      var r := Allocation(x.s, sizes[0], true, cfg, true);
      if r.Block? { AttachingKeeps(Value(r.s, x.v, x.elements + [Attached(e, r.p)]), e, sizes[1..], cfg); }
    }
  }

  // ---- Inserting ----

  /** The vector with the element inserted; or what is left of it with nothing to move out of the way. */
  datatype Insertion = Inserted(x: Value) | Runaway | Stopped

  /** Appending an empty element and moving those from `index` on over it, whether it was appended or not. */
  ghost function Inserting(x: Value, index: nat, e: seq<byte>, cfg: Config): Insertion
    requires x.s.Inv() && Stored(x.s.l, x.v) && index <= |x.elements|
  {
    match Adding(x, e, cfg)
    case Done(y) => Inserted(y.(elements := x.elements[..index] + [e] + x.elements[index..]))
    case NoSpace(y) =>
      if index < |x.elements| then
        Inserted(y.(elements := x.elements[..index] + [e] + x.elements[index..|x.elements| - 1]))
      else
        Runaway
    case Crash => Stopped
  }

  /** The element is inserted and all others are there exactly if there is room for one more or storage for it. */
  lemma InsertionIsExact(x: Value, index: nat, e: seq<byte>, cfg: Config)
    requires x.Ok() && index <= |x.elements|
    ensures var r := Inserting(x, index, e, cfg);
      (r.Inserted? && r.x.elements == x.elements[..index] + [e] + x.elements[index..])
        <==> |x.elements| < x.v.Capacity() || Growing(x.s, x.v, |x.elements| + 1, DefaultFirst(x.v.stride), cfg).Grown?
  {
    hide State.Inv, Stored, Vec.Capacity, Growing, DefaultFirst;
    if |x.elements| < x.v.Capacity() { PlaceLeft(x.s, x.v, |x.elements|, cfg); } else { FirstBelow(x.s.l, x.v); }
    var r := Inserting(x, index, e, cfg);
    if r.Inserted? && !Adding(x, e, cfg).Done? {
      assert |r.x.elements| == |x.elements|;
      assert |x.elements[..index] + [e] + x.elements[index..]| == |x.elements| + 1;
    }
  }

  lemma FirstBelow(l: Layout, v: Vec)
    requires Stored(l, v)
    ensures v.block != 0 ==> v.first <= v.Capacity()
  {
    if v.block != 0 { EndMonotone(v.first, 0, |v.chunks|); Unscaled(v.first); }
  }

  /** A full buffer of two blocks. */
  function TwoBlocks(): State {
    State(Layout(40, 96, map[40 := Tile(24, Regular), 64 := Tile(32, Regular)], [], [[], [], [], []]), 72, false)
  }

  lemma TwoBlocksInv()
    ensures TwoBlocks().Inv()
  {
    var l := TwoBlocks().l;
    assert l.TileOk(40) && l.TileOk(64);
  }

  lemma TwoBlocksStored()
    ensures Stored(TwoBlocks().l, Vec(40, 48, 8, 72, 1, 0, [])) && Stored(TwoBlocks().l, Vec(40, 48, 8, 0, 0, 0, []))
  {
    BlocksOf(Vec(40, 48, 8, 72, 1, 0, []));
    BlocksOf(Vec(40, 48, 8, 0, 0, 0, []));
  }

  lemma NoneFits(s: State, n: nat, cfg: Config)
    requires s.Inv() && !s.failed && s.l.free == [] && s.l.idle == [[], [], [], []] && !cfg.movable && 0 < n
    ensures Allocation(s, n, true, cfg, true) == Null(Fail(s))
  {
    hide Layout.Tiled, Layout.Listed, Align8, DropLists;
  }

  /** In a full buffer inserting before the one element there is replaces it, and in an empty vector it goes astray. */
  lemma InsertionCanLose(e: seq<byte>, was: seq<byte>, cfg: Config)
    requires |e| == |was| == 8 && !cfg.movable
    ensures var x := Value(TwoBlocks(), Vec(40, 48, 8, 72, 1, 0, []), [was]);
      x.Ok() && Inserting(x, 0, e, cfg) == Inserted(Value(Fail(x.s), x.v, [e]))
    ensures var y := Value(TwoBlocks(), Vec(40, 48, 8, 0, 0, 0, []), []);
      y.Ok() && Inserting(y, 0, e, cfg) == Runaway
  {
    hide State.Inv, Stored, Allocation, Fail;
    var s := TwoBlocks();
    TwoBlocksInv();
    TwoBlocksStored();
    NoneFits(s, 8, cfg);
    NoneFits(s, BlockBytes(8, 8), cfg);
    assert ChunkBytes(1, 1, 8) == 8;
    var x := Value(s, Vec(40, 48, 8, 72, 1, 0, []), [was]);
    assert Placing(s, x.v, 1, cfg) == Full(Fail(s), x.v);
    assert x.elements[..0] + [e] + x.elements[0..0] == [e];
    assert Placing(s, Vec(40, 48, 8, 0, 0, 0, []), 0, cfg).Full?;
  }
}
